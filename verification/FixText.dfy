/** The text primitives the FIX codec is built from: searching, decimal printing, and reading a 32-bit integer off a prefix. */
module FixText {
  import opened Types
  import opened Text

  /** The field delimiter. */
  const SOH: char := '\U{1}'

  const INT32_MAX: int := 0x7FFF_FFFF
  const INT32_MIN: int := -0x8000_0000

  predicate IsDigit(c: char) {
    '0' <= c <= '9'
  }

  predicate AllDigits(s: string) {
    forall i | 0 <= i < |s| :: IsDigit(s[i])
  }

  predicate NoSoh(s: string) {
    SOH !in s
  }

  // ---------- Searching ----------

  /** Position of the first `c`. */
  function Find(s: string, c: char): (r: Option<nat>)
    ensures r.Some? ==> r.value < |s| && s[r.value] == c && forall j | 0 <= j < r.value :: s[j] != c
    ensures r.None? <==> c !in s
  {
    if s == [] then None
    else if s[0] == c then Some(0)
    else
      var r := Find(s[1..], c);
      if r.None? then None else Some(r.value + 1)
  }

  predicate OccursAt(s: string, needle: string, i: nat) {
    i + |needle| <= |s| && s[i..i + |needle|] == needle
  }

  /** Position of the first occurrence of `needle` at or after `i`. */
  function FindText(s: string, needle: string, i: nat): (r: Option<nat>)
    requires i <= |s|
    ensures r.Some? ==> i <= r.value && OccursAt(s, needle, r.value) && forall j | i <= j < r.value :: !OccursAt(s, needle, j)
    ensures r.None? ==> forall j | i <= j <= |s| :: !OccursAt(s, needle, j)
    decreases |s| - i
  {
    if OccursAt(s, needle, i) then Some(i)
    else if i == |s| then None
    else FindText(s, needle, i + 1)
  }

  /** Position of the last occurrence of `needle` at or before `i`. */
  function FindLastText(s: string, needle: string, i: nat): (r: Option<nat>)
    requires i <= |s|
    ensures r.Some? ==> r.value <= i && OccursAt(s, needle, r.value) && forall j | r.value < j <= i :: !OccursAt(s, needle, j)
    ensures r.None? ==> forall j | 0 <= j <= i :: !OccursAt(s, needle, j)
  {
    if OccursAt(s, needle, i) then Some(i)
    else if i == 0 then None
    else FindLastText(s, needle, i - 1)
  }

  lemma FindIs(s: string, c: char, i: nat)
    requires i < |s| && s[i] == c && forall j | 0 <= j < i :: s[j] != c
    ensures Find(s, c) == Some(i)
  {
    var r := Find(s, c);
    assert s[i] in s;
  }

  lemma FindTextIs(s: string, needle: string, i: nat)
    requires OccursAt(s, needle, i) && forall j | 0 <= j < i :: !OccursAt(s, needle, j)
    ensures FindText(s, needle, 0) == Some(i)
  {}

  lemma FindLastTextIs(s: string, needle: string, i: nat)
    requires OccursAt(s, needle, i) && forall j | i < j <= |s| :: !OccursAt(s, needle, j)
    ensures FindLastText(s, needle, |s|) == Some(i)
  {}

  // ---------- Numbers ----------

  /** How many digits a text starts with. */
  function DigitCount(s: string): (n: nat)
    ensures n <= |s| && AllDigits(s[..n]) && (n < |s| ==> !IsDigit(s[n]))
  {
    if s == [] || !IsDigit(s[0]) then 0
    else
      var n := DigitCount(s[1..]);
      assert s[..n + 1] == [s[0]] + s[1..][..n];
      n + 1
  }

  function DigitsValue(s: string): (v: int)
    requires AllDigits(s)
    ensures v >= 0
  {
    if s == [] then 0 else 10 * DigitsValue(s[..|s| - 1]) + (s[|s| - 1] as int - '0' as int)
  }

  /**
  Reads a signed 32-bit integer off the start of a text: an optional minus sign, then as many digits as there are.
  What follows the digits is ignored; no digits, or a value outside 32 bits, is an error.
  */
  function FromChars(s: string): Option<int> {
    var negative := s != [] && s[0] == '-';
    var rest := if negative then s[1..] else s;
    var n := DigitCount(rest);
    if n == 0 then None
    else
      var v := if negative then -DigitsValue(rest[..n]) else DigitsValue(rest[..n]);
      if INT32_MIN <= v <= INT32_MAX then Some(v) else None
  }

  lemma FromCharsRange(s: string)
    ensures FromChars(s).Some? ==> INT32_MIN <= FromChars(s).value <= INT32_MAX
  {}

  lemma {:induction false} DigitsValueOfDigits(n: nat)
    ensures AllDigits(Digits(n)) && DigitsValue(Digits(n)) == n
  {
    var s := Digits(n);
    if n >= 10 {
      DigitsValueOfDigits(n / 10);
      assert s[..|s| - 1] == Digits(n / 10);
    } else {
      assert s[..0] == [];
    }
  }

  lemma DigitCountIs(s: string, n: nat)
    requires n <= |s| && AllDigits(s[..n]) && (n < |s| ==> !IsDigit(s[n]))
    ensures DigitCount(s) == n
  {
    var k := DigitCount(s);
    assert forall i | 0 <= i < n :: s[..n][i] == s[i];
    assert forall i | 0 <= i < k :: s[..k][i] == s[i];
  }

  /** Reading digits off a text that starts with them. */
  lemma CountAndValueOfDigits(m: nat, rest: string)
    requires rest == [] || !IsDigit(rest[0])
    ensures var body := Digits(m) + rest;
            && body != [] && IsDigit(body[0]) && DigitCount(body) == |Digits(m)| > 0
            && body[..|Digits(m)|] == Digits(m) && AllDigits(Digits(m)) && DigitsValue(Digits(m)) == m
  {
    hide DigitsValue;
    DigitsValueOfDigits(m);
    DigitCountIs(Digits(m) + rest, |Digits(m)|);
  }

  /** Printing and reading are inverse, whatever follows the digits. */
  lemma FromCharsOfDecimal(n: int, rest: string)
    requires INT32_MIN <= n
    requires rest == [] || !IsDigit(rest[0])
    ensures FromChars(Decimal(n) + rest) == if n <= INT32_MAX then Some(n) else None
  {
    hide FromChars, Digits;
    if n < 0 {
      FromCharsOfSigned(Decimal(n) + rest, -n, rest);
    } else {
      FromCharsOfDigits(n, rest);
    }
  }

  lemma FromCharsOfDigits(n: nat, rest: string)
    requires rest == [] || !IsDigit(rest[0])
    ensures FromChars(Digits(n) + rest) == if n <= INT32_MAX then Some(n) else None
  {
    hide DigitsValue, Digits, DigitCount, AllDigits;
    CountAndValueOfDigits(n, rest);
  }

  lemma FromCharsOfSigned(s: string, n: int, rest: string)
    requires rest == [] || !IsDigit(rest[0])
    requires n > 0 && INT32_MIN <= -n && s == "-" + Digits(n) + rest
    ensures FromChars(s) == Some(-n)
  {
    hide DigitsValue, Digits, DigitCount, AllDigits;
    CountAndValueOfDigits(n, rest);
    assert s[0] == '-' && s[1..] == Digits(n) + rest;
  }

  /** Three decimal digits, with leading zeros. */
  function ThreeDigits(n: nat): (s: string)
    requires n < 1000
    ensures |s| == 3 && AllDigits(s)
  {
    [DigitChar(n / 100), DigitChar(n / 10 % 10), DigitChar(n % 10)]
  }

  lemma ThreeValue(a: char, b: char, c: char)
    requires IsDigit(a) && IsDigit(b) && IsDigit(c)
    ensures DigitsValue([a, b, c]) == 100 * (a as int - '0' as int) + 10 * (b as int - '0' as int) + (c as int - '0' as int)
    ensures DigitsValue([a, b]) == 10 * (a as int - '0' as int) + (b as int - '0' as int)
    ensures DigitsValue([a]) == a as int - '0' as int
  {
    var s3, s2, s1: string := [a, b, c], [a, b], [a];
    assert s3[..|s3| - 1] == s2;
    assert s2[..|s2| - 1] == s1;
    assert s1[..|s1| - 1] == [];
    assert DigitsValue([]) == 0;
    assert DigitsValue(s1) == a as int - '0' as int;
    assert DigitsValue(s2) == 10 * DigitsValue(s1) + (b as int - '0' as int);
    assert DigitsValue(s3) == 10 * DigitsValue(s2) + (c as int - '0' as int);
  }

  /** What reading a three-character text yields, by its first non-digit. */
  lemma FromCharsOfThree(a: char, b: char, c: char)
    ensures IsDigit(a) && IsDigit(b) && IsDigit(c) ==> FromChars([a, b, c]) == Some(DigitsValue([a, b, c]))
    ensures IsDigit(a) && IsDigit(b) && !IsDigit(c) ==> FromChars([a, b, c]) == Some(DigitsValue([a, b]))
    ensures IsDigit(a) && !IsDigit(b) ==> FromChars([a, b, c]) == Some(DigitsValue([a]))
    ensures a == '-' && IsDigit(b) && IsDigit(c) ==> FromChars([a, b, c]) == Some(-DigitsValue([b, c]))
    ensures a != '-' && !IsDigit(a) ==> FromChars([a, b, c]) == None
  {
    hide DigitsValue;
    var s := [a, b, c];
    if IsDigit(a) {
      var n := if !IsDigit(b) then 1 else if !IsDigit(c) then 2 else 3;
      ThreeValue(a, if n > 1 then b else '0', if n > 2 then c else '0');
      assert s[..n] == if n == 1 then [a] else if n == 2 then [a, b] else [a, b, c];
      DigitCountIs(s, n);
    } else if a == '-' {
      assert s[1..] == [b, c];
      if IsDigit(b) && IsDigit(c) {
        ThreeValue(b, c, '0');
        assert [b, c][..2] == [b, c];
        DigitCountIs([b, c], 2);
      }
    } else {
      DigitCountIs(s, 0);
    }
  }
}
