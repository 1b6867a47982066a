/** Characters in the C locale, and decimal numbers. */
module Chars {
  const BACKSPACE := '\U{08}'
  const FORM_FEED := '\U{0C}'
  const VERTICAL_TAB := '\U{0B}'

  predicate IsSpace(c: char) {
    c == ' ' || c == '\t' || c == '\n' || c == VERTICAL_TAB || c == FORM_FEED || c == '\r'
  }

  predicate IsDigit(c: char) { '0' <= c <= '9' }

  function Upper(c: char): char {
    if 'a' <= c <= 'z' then (c as int - 32) as char else c
  }

  /** The spelling shared by all strings equal to `s` ignoring case. */
  function Fold(s: string): (r: string)
    ensures |r| == |s|
  {
    if s == "" then "" else [Upper(s[0])] + Fold(s[1..])
  }

  /** The same character, or one is a small letter and the other its capital, 32 below it. */
  predicate SameLetter(c: char, d: char) {
    || c == d
    || ('a' <= c <= 'z' && c as int - 32 == d as int)
    || ('a' <= d <= 'z' && d as int - 32 == c as int)
  }

  /** The same length, and the same letters in the same places. */
  predicate SameLetters(a: string, b: string) { |a| == |b| && forall i | 0 <= i < |a| :: SameLetter(a[i], b[i]) }

  /** Capitals are what letters are compared by: no small letter is one. */
  lemma UpperIs(c: char, d: char)
    ensures SameLetter(c, Upper(c)) && !('a' <= Upper(c) <= 'z')
    ensures Upper(c) == Upper(d) <==> SameLetter(c, d)
  {
  }

  /** White space is the blank and the five control characters from the tab to the carriage return. */
  lemma SpaceIs(c: char)
    ensures IsSpace(c) <==> c as int == 0x20 || 0x09 <= c as int <= 0x0d
  {
  }

  /** Texts have one spelling in common exactly when their letters are the same. */
  lemma {:induction false} FoldIff(a: string, b: string)
    ensures Fold(a) == Fold(b) <==> SameLetters(a, b)
  {
    if a != "" && b != "" {
      FoldIff(a[1..], b[1..]);
      UpperIs(a[0], b[0]);
      assert Fold(a)[0] == Upper(a[0]) && Fold(b)[0] == Upper(b[0]);
      assert Fold(a)[1..] == Fold(a[1..]) && Fold(b)[1..] == Fold(b[1..]);
      assert Fold(a) == Fold(b) <==> Upper(a[0]) == Upper(b[0]) && Fold(a[1..]) == Fold(b[1..]);
      if SameLetters(a[1..], b[1..]) && |a| == |b| {
        assert forall i | 0 < i < |a| :: a[i] == a[1..][i - 1] && b[i] == b[1..][i - 1];
      }
    }
  }

  // ---- Decimal numbers ------------------------------------------------------------------------

  predicate AllDigits(s: string) { forall k | 0 <= k < |s| :: IsDigit(s[k]) }

  function Digit(d: nat): char
    requires d < 10
  {
    ['0', '1', '2', '3', '4', '5', '6', '7', '8', '9'][d]
  }

  function Decimal(n: nat): string {
    if n < 10 then [Digit(n)] else Decimal(n / 10) + [Digit(n % 10)]
  }

  function DecimalText(n: int): string { if n < 0 then "-" + Decimal(-n) else Decimal(n) }

  /** The number a string of digits denotes. */
  function DigitsValue(s: string): int {
    if s == "" then 0 else 10 * DigitsValue(s[..|s| - 1]) + (s[|s| - 1] as int - '0' as int)
  }

  lemma DigitAppended(s: string, d: nat)
    requires AllDigits(s) && d < 10
    ensures AllDigits(s + [Digit(d)]) && DigitsValue(s + [Digit(d)]) == 10 * DigitsValue(s) + d
  {
    assert IsDigit(Digit(d)) && Digit(d) as int - '0' as int == d;
    assert (s + [Digit(d)])[..|s|] == s;
  }

  lemma {:induction false} DecimalDigits(n: nat)
    ensures |Decimal(n)| > 0 && AllDigits(Decimal(n))
    ensures DigitsValue(Decimal(n)) == n
    ensures Decimal(n)[0] == '0' <==> n == 0
    ensures n == 0 ==> |Decimal(n)| == 1
  {
    if n >= 10 {
      DecimalDigits(n / 10);
      DigitAppended(Decimal(n / 10), n % 10);
    }
  }

  // ---- std::from_chars for a signed 64-bit number ----------------------------------------------

  const INT64_MIN := -0x8000_0000_0000_0000
  const INT64_MAX := 0x7fff_ffff_ffff_ffff

  predicate IsInt64(n: int) { INT64_MIN <= n <= INT64_MAX }

  function DigitsEnd(s: string, i: nat): (r: nat)
    requires i <= |s|
    ensures i <= r <= |s|
    decreases |s| - i
  {
    if i < |s| && IsDigit(s[i]) then DigitsEnd(s, i + 1) else i
  }

  /** Where reading stopped, and the number unless there is none or it is out of range. */
  datatype Scanned = Nothing | OutOfRange(end: nat) | Number(end: nat, value: int)

  function FromChars(s: string): (r: Scanned)
    ensures !r.Nothing? ==> 0 < r.end <= |s|
    ensures r.Number? ==> IsInt64(r.value)
  {
    var k := if s != "" && s[0] == '-' then 1 else 0;
    var end := DigitsEnd(s, k);
    if end == k then Nothing
    else
      var m := DigitsValue(s[k..end]);
      var n := if k == 1 then -m else m;
      if IsInt64(n) then Number(end, n) else OutOfRange(end)
  }

  lemma {:induction false} DigitsAreDigits(s: string, i: nat)
    requires i <= |s|
    ensures AllDigits(s[i..DigitsEnd(s, i)])
    decreases |s| - i
  {
    if i < |s| && IsDigit(s[i]) {
      DigitsAreDigits(s, i + 1);
      assert s[i..DigitsEnd(s, i)] == [s[i]] + s[i + 1..DigitsEnd(s, i)];
    }
  }

  lemma {:induction false} DigitsAreNatural(s: string)
    requires AllDigits(s)
    ensures DigitsValue(s) >= 0
  {
    if s != "" {
      assert IsDigit(s[|s| - 1]);
      DigitsAreNatural(s[..|s| - 1]);
    }
  }

  lemma {:induction false} DigitsEndAt(s: string, i: nat, end: nat)
    requires i <= end <= |s| && AllDigits(s[i..end]) && (end < |s| ==> !IsDigit(s[end]))
    ensures DigitsEnd(s, i) == end
    decreases end - i
  {
    if i < end {
      assert s[i..end][0] == s[i] && s[i..end][1..] == s[i + 1..end];
      DigitsEndAt(s, i + 1, end);
    }
  }

  /** A printed number is read back from in front of anything that is not a digit, if 64 bits hold it. */
  lemma ReadsDecimal(n: int, suffix: string)
    requires suffix != "" ==> !IsDigit(suffix[0])
    ensures FromChars(DecimalText(n) + suffix)
      == if IsInt64(n) then Number(|DecimalText(n)|, n) else OutOfRange(|DecimalText(n)|)
  {
    var m, k := if n < 0 then -n else n, if n < 0 then 1 else 0;
    var s := DecimalText(n) + suffix;
    DecimalDigits(m);
    assert IsDigit(Decimal(m)[0]);
    assert s[k..|DecimalText(n)|] == Decimal(m);
    DigitsEndAt(s, k, |DecimalText(n)|);
  }
}
