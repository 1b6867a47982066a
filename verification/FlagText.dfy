/** The text forms of string and duration flags. */
module FlagText {
  import opened Wrappers
  import opened Chars

  // ---- Strings --------------------------------------------------------------------------------

  predicate NeedsBackslash(c: char) { c == '\\' || c == '"' || IsSpace(c) }

  function FormatString(s: string): string {
    if s == "" then ""
    else (if NeedsBackslash(s[0]) then ['\\', s[0]] else [s[0]]) + FormatString(s[1..])
  }

  /** A backslash stands for the character after it; one at the end for nothing. */
  function ParseString(s: string): string {
    if s == "" then ""
    else if s[0] != '\\' then [s[0]] + ParseString(s[1..])
    else if |s| == 1 then ""
    else [s[1]] + ParseString(s[2..])
  }

  lemma {:induction false} StringComesBack(s: string)
    ensures ParseString(FormatString(s)) == s
  {
    if s != "" {
      var t := FormatString(s[1..]);
      StringComesBack(s[1..]);
      if NeedsBackslash(s[0]) {
        assert (['\\', s[0]] + t)[2..] == t;
      } else {
        assert ([s[0]] + t)[1..] == t;
      }
    }
  }

  /** A quotation mark, a backslash, or white space: a blank or one of the controls 9 to 13. */
  predicate Special(c: char) { c == '"' || c == '\\' || c as int == 0x20 || 0x09 <= c as int <= 0x0d }

  /** Special characters, and no others, have a backslash before them. */
  predicate Guarded(t: string) {
    t == "" ||
    if t[0] == '\\' then |t| > 1 && Special(t[1]) && Guarded(t[2..]) else !Special(t[0]) && Guarded(t[1..])
  }

  /** The formatted string is the one text that is guarded and parses to the string. */
  lemma {:induction false} FormatIff(s: string, t: string)
    ensures t == FormatString(s) <==> Guarded(t) && ParseString(t) == s
    decreases |t|
  {
    StringComesBack(s);
    FormatIsGuarded(s);
    if t != "" && Guarded(t) && ParseString(t) == s {
      if t[0] == '\\' {
        SpaceIs(t[1]);
        FormatIff(s[1..], t[2..]);
        assert t == ['\\', t[1]] + t[2..];
      } else {
        SpaceIs(t[0]);
        FormatIff(s[1..], t[1..]);
        assert t == [t[0]] + t[1..];
      }
    }
  }

  /** A backslash at the end of a text stands for nothing. */
  lemma {:induction false} EndingBackslash(s: string)
    ensures ParseString(FormatString(s) + "\\") == s
  {
    if s == "" {
      assert FormatString(s) + "\\" == "\\";
    } else {
      var head := if NeedsBackslash(s[0]) then ['\\', s[0]] else [s[0]];
      var tail := FormatString(s[1..]) + "\\";
      EndingBackslash(s[1..]);
      assert FormatString(s) + "\\" == head + tail;
      assert (head + tail)[|head|..] == tail;
    }
  }

  lemma {:induction false} FormatIsGuarded(s: string)
    ensures Guarded(FormatString(s))
  {
    if s != "" {
      var t := FormatString(s[1..]);
      FormatIsGuarded(s[1..]);
      SpaceIs(s[0]);
      assert (['\\', s[0]] + t)[2..] == t && ([s[0]] + t)[1..] == t;
    }
  }

  lemma Glue(a: string, b: string, c: string)
    ensures (a + b) + c == a + (b + c)
  {
  }

  method Escape(s: string) returns (out: string)
    ensures out == FormatString(s)
    ensures ParseString(out) == s
  {
    out := "";
    var i := 0;
    while i < |s|
      invariant 0 <= i <= |s| && out + FormatString(s[i..]) == FormatString(s)
    {
      assert s[i..][1..] == s[i + 1..];
      var piece := [s[i]];
      if NeedsBackslash(s[i]) { piece := ['\\', s[i]]; }
      Glue(out, piece, FormatString(s[i + 1..]));
      out := out + piece;
      i := i + 1;
    }
    StringComesBack(s);
  }

  /** What is left to read at `i`, with a backslash pending or not. */
  function ParseFrom(s: string, i: nat, escaped: bool): string
    requires i <= |s|
    decreases |s| - i
  {
    if i == |s| then ""
    else if !escaped && s[i] == '\\' then ParseFrom(s, i + 1, true)
    else [s[i]] + ParseFrom(s, i + 1, false)
  }

  lemma {:induction false} ParseFromIsParse(s: string, i: nat)
    requires i <= |s|
    ensures ParseFrom(s, i, false) == ParseString(s[i..])
    decreases |s| - i
  {
    if i < |s| {
      assert s[i..][1..] == s[i + 1..];
      if s[i] != '\\' { ParseFromIsParse(s, i + 1); }
      else if i + 1 < |s| {
        assert s[i..][2..] == s[i + 2..];
        ParseFromIsParse(s, i + 2);
      }
    }
  }

  method Unescape(s: string) returns (out: string)
    ensures out == ParseString(s)
  {
    ParseFromIsParse(s, 0);
    assert s[0..] == s;
    out := "";
    var escaped, i := false, 0;
    while i < |s|
      invariant 0 <= i <= |s| && out + ParseFrom(s, i, escaped) == ParseString(s)
    {
      if !escaped && s[i] == '\\' {
        escaped := true;
      } else {
        escaped := false;
        Glue(out, [s[i]], ParseFrom(s, i + 1, false));
        out := out + [s[i]];
      }
      i := i + 1;
    }
  }

  // ---- Durations ------------------------------------------------------------------------------

  /** The nanoseconds in a unit; a year is 365.2425 days. */
  function UnitSize(unit: string): Option<nat> {
    if unit == "y" then Some(31_556_952_000_000_000)
    else if unit == "d" then Some(86_400_000_000_000)
    else if unit == "h" then Some(3_600_000_000_000)
    else if unit == "m" then Some(60_000_000_000)
    else if unit == "s" then Some(1_000_000_000)
    else if unit == "ms" then Some(1_000_000)
    else if unit == "us" then Some(1_000)
    else if unit == "ns" then Some(1)
    else None
  }

  /** The largest of these units the duration is a whole number of; microseconds are passed over. */
  function UnitFor(d: int): (u: string)
    ensures u in ["y", "d", "h", "m", "s", "ms", "ns"] && UnitSize(u).Some? && UnitSize(u).value > 0
    ensures d % UnitSize(u).value == 0
  {
    if d % 31_556_952_000_000_000 == 0 then "y"
    else if d % 86_400_000_000_000 == 0 then "d"
    else if d % 3_600_000_000_000 == 0 then "h"
    else if d % 60_000_000_000 == 0 then "m"
    else if d % 1_000_000_000 == 0 then "s"
    else if d % 1_000_000 == 0 then "ms"
    else "ns"
  }

  const FORMAT_UNITS := ["y", "d", "h", "m", "s", "ms", "ns"]

  /** Of the units that are written, no larger one divides the duration. */
  lemma LargestUnit(d: int, u: string)
    requires u in FORMAT_UNITS && UnitSize(u).Some? && UnitSize(u).value > 0 && d % UnitSize(u).value == 0
    ensures UnitFor(d) in FORMAT_UNITS && UnitSize(u).value <= UnitSize(UnitFor(d)).value
  {
  }

  function Size(unit: string): nat { if UnitSize(unit).Some? then UnitSize(unit).value else 0 }

  /** The units and their ratios; a year has 365.2425 days. */
  lemma UnitsAre(unit: string)
    ensures UnitSize(unit).Some? <==> unit in FORMAT_UNITS + ["us"]
    ensures Size("ns") == 1 && Size("us") == 1000 * Size("ns") && Size("ms") == 1000 * Size("us")
    ensures Size("s") == 1000 * Size("ms") && Size("m") == 60 * Size("s") && Size("h") == 60 * Size("m")
    ensures Size("d") == 24 * Size("h") && 10_000 * Size("y") == 3_652_425 * Size("d")
  {
  }

  function FormatDuration(d: int): string { DecimalText(d / UnitSize(UnitFor(d)).value) + UnitFor(d) }

  datatype DurationError = MissingUnit | BadNumber | TooLarge | UnknownUnit | Overflow

  /** The end of the unit that starts at `i`: one character, and more up to the next digit. */
  function UnitEnd(v: string, i: nat): (r: nat)
    requires i <= |v|
    ensures i <= r <= |v| && (r < |v| ==> IsDigit(v[r])) && (forall k | i <= k < r :: !IsDigit(v[k]))
    decreases |v| - i
  {
    if i == |v| || IsDigit(v[i]) then i else UnitEnd(v, i + 1)
  }

  /** A number of nanoseconds, and the text after it. */
  datatype Term = Term(nanoseconds: int, rest: string)

  /** `n` of the unit that starts at `i`. */
  function UnitTerm(v: string, i: nat, n: int): (r: Result<Term, DurationError>)
    requires i < |v|
    ensures r.Success? ==> |r.value.rest| < |v| && (r.value.rest != "" ==> IsDigit(r.value.rest[0]))
  {
    var u := UnitEnd(v, i + 1);
    match UnitSize(v[i..u])
    case None => Failure(UnknownUnit)
    case Some(size) => Success(Term(n * size, v[u..]))
  }

  /** One number and its unit off the front. */
  function ParseTerm(v: string): (r: Result<Term, DurationError>)
    requires v != ""
    ensures r.Success? ==> |r.value.rest| < |v| && (r.value.rest != "" ==> IsDigit(r.value.rest[0]))
  {
    match FromChars(v)
    case Nothing => Failure(BadNumber)
    case OutOfRange(end) => if end == |v| then Failure(MissingUnit) else Failure(TooLarge)
    case Number(end, n) => if end == |v| then Failure(MissingUnit) else UnitTerm(v, end, n)
  }

  /** The terms of a text one after the other, up to its end or the first that cannot be read. */
  datatype Terms = NoMore | Bad(error: DurationError) | More(nanoseconds: int, rest: Terms)

  function TermsOf(v: string): Terms
    decreases |v|
  {
    if v == "" then NoMore
    else
      match ParseTerm(v)
      case Failure(e) => Bad(e)
      case Success(t) => More(t.nanoseconds, TermsOf(t.rest))
  }

  /** The terms added to `sum`; a product or a sum beyond 64 bits is an overflow. */
  function Sum(terms: Terms, sum: int): Result<int, DurationError>
    decreases terms
  {
    match terms
    case NoMore => Success(sum)
    case Bad(e) => Failure(e)
    case More(n, rest) => if !IsInt64(n) || !IsInt64(sum + n) then Failure(Overflow) else Sum(rest, sum + n)
  }

  function ParseDuration(v: string): Result<int, DurationError> { Sum(TermsOf(v), 0) }

  // ---- The round trip -------------------------------------------------------------------------

  lemma {:induction false} TimesGrows(q: int, size: nat)
    requires size > 0
    ensures q >= 0 ==> q * size >= q
    ensures q <= 0 ==> q * size <= q
  {
    if size > 1 {
      TimesGrows(q, size - 1);
      assert q * size == q * (size - 1) + q;
    }
  }

  lemma WholeUnits(d: int, size: nat)
    requires size > 0 && d % size == 0 && IsInt64(d)
    ensures d / size * size == d && IsInt64(d / size)
  {
    TimesGrows(d / size, size);
  }

  predicate NoDigits(s: string) { forall i | 0 <= i < |s| :: !IsDigit(s[i]) }

  lemma {:induction false} UnitToTheEnd(v: string, i: nat)
    requires i <= |v| && forall k | i <= k < |v| :: !IsDigit(v[k])
    ensures UnitEnd(v, i) == |v|
    decreases |v| - i
  {
    if i < |v| { UnitToTheEnd(v, i + 1); }
  }

  lemma UnitTermWhole(number: string, unit: string, size: nat, n: int)
    requires unit != "" && NoDigits(unit) && UnitSize(unit) == Some(size)
    ensures UnitTerm(number + unit, |number|, n) == Success(Term(n * size, ""))
  {
    var v, end := number + unit, |number|;
    assert forall k | end <= k < |v| :: v[k] == unit[k - end];
    UnitToTheEnd(v, end + 1);
    assert v[end..|v|] == unit && v[|v|..] == "";
  }

  lemma TermComesBack(n: int, unit: string, size: nat)
    requires IsInt64(n) && unit != "" && NoDigits(unit) && UnitSize(unit) == Some(size)
    ensures ParseTerm(DecimalText(n) + unit) == Success(Term(n * size, ""))
  {
    ReadsDecimal(n, unit);
    UnitTermWhole(DecimalText(n), unit, size, n);
  }

  lemma UnitTermUnknown(number: string, unit: string, n: int)
    requires unit != "" && NoDigits(unit) && UnitSize(unit).None?
    ensures UnitTerm(number + unit, |number|, n) == Failure(UnknownUnit)
  {
    var v, end := number + unit, |number|;
    assert forall k | end <= k < |v| :: v[k] == unit[k - end];
    UnitToTheEnd(v, end + 1);
    assert v[end..|v|] == unit;
  }

  lemma NumberAndUnit(n: int, unit: string)
    requires NoDigits(unit)
    ensures var v := DecimalText(n) + unit;
      && v != ""
      && ParseTerm(v) ==
           if unit == "" then Failure(MissingUnit)
           else if !IsInt64(n) then Failure(TooLarge)
           else if UnitSize(unit).None? then Failure(UnknownUnit)
           else Success(Term(n * Size(unit), ""))
  {
    ReadsDecimal(n, unit);
    if n >= 0 { DecimalDigits(n); }
    if unit != "" && IsInt64(n) {
      if UnitSize(unit).None? { UnitTermUnknown(DecimalText(n), unit, n); }
      else { TermComesBack(n, unit, Size(unit)); }
    }
  }

  lemma FirstFails(v: string)
    requires v != "" && ParseTerm(v).Failure?
    ensures ParseDuration(v) == Failure(ParseTerm(v).error)
  {
    assert TermsOf(v) == Bad(ParseTerm(v).error);
  }

  lemma OnlyTerm(v: string, nanoseconds: int)
    requires v != "" && ParseTerm(v) == Success(Term(nanoseconds, ""))
    ensures ParseDuration(v) == if IsInt64(nanoseconds) then Success(nanoseconds) else Failure(Overflow)
  {
    assert TermsOf("") == NoMore;
    assert TermsOf(v) == More(nanoseconds, NoMore);
    assert Sum(NoMore, 0 + nanoseconds) == Success(nanoseconds);
  }

  /** What any number with any unit behind it is read as. */
  lemma OneTerm(n: int, unit: string)
    requires NoDigits(unit)
    ensures ParseDuration(DecimalText(n) + unit) ==
      if unit == "" then Failure(MissingUnit)
      else if !IsInt64(n) then Failure(TooLarge)
      else if UnitSize(unit).None? then Failure(UnknownUnit)
      else if !IsInt64(n * Size(unit)) then Failure(Overflow)
      else Success(n * Size(unit))
  {
    var v := DecimalText(n) + unit;
    NumberAndUnit(n, unit);
    if ParseTerm(v).Failure? { FirstFails(v); } else { OnlyTerm(v, n * Size(unit)); }
  }

  /** A text that does not start with a number is refused, and a digit starts one. */
  lemma BadNumberIff(v: string)
    requires v != ""
    ensures ParseTerm(v) == Failure(BadNumber) <==>
      !IsDigit(v[0]) && !(v[0] == '-' && |v| > 1 && IsDigit(v[1]))
  {
    assert DigitsEnd(v, 0) > 0 <==> IsDigit(v[0]);
    if |v| > 1 { assert DigitsEnd(v, 1) > 1 <==> IsDigit(v[1]); }
  }

  /** Every 64-bit count of nanoseconds is read back from its text. */
  lemma DurationComesBack(d: int)
    requires IsInt64(d)
    ensures ParseDuration(FormatDuration(d)) == Success(d)
  {
    var unit := UnitFor(d);
    var size := UnitSize(unit).value;
    WholeUnits(d, size);
    TermComesBack(d / size, unit, size);
    assert TermsOf("") == NoMore;
    assert TermsOf(FormatDuration(d)) == More(d, NoMore);
    assert Sum(NoMore, 0 + d) == Success(d);
  }

  // ---- Texts one after the other --------------------------------------------------------------

  predicate StartsTerm(v: string) { v == "" || IsDigit(v[0]) }

  lemma {:induction false} DigitsStop(s: string, i: nat)
    requires i <= |s|
    ensures DigitsEnd(s, i) < |s| ==> !IsDigit(s[DigitsEnd(s, i)])
    decreases |s| - i
  {
    if i < |s| && IsDigit(s[i]) { DigitsStop(s, i + 1); }
  }

  /** What follows does not change a number that is not the end of its text. */
  lemma NumberAppended(a: string, b: string)
    requires a != "" && FromChars(a).Number? && FromChars(a).end < |a|
    ensures FromChars(a + b) == FromChars(a)
  {
    var k := if a[0] == '-' then 1 else 0;
    var end := DigitsEnd(a, k);
    DigitsStop(a, k);
    DigitsAreDigits(a, k);
    assert (a + b)[k..end] == a[k..end];
    DigitsEndAt(a + b, k, end);
  }

  lemma {:induction false} UnitAppended(a: string, b: string, i: nat)
    requires i <= |a| && StartsTerm(b)
    ensures UnitEnd(a + b, i) == UnitEnd(a, i)
    decreases |a| - i
  {
    if i < |a| && !IsDigit(a[i]) { UnitAppended(a, b, i + 1); }
  }

  lemma UnitTermAppended(a: string, b: string, i: nat, n: int)
    requires i < |a| && StartsTerm(b) && UnitTerm(a, i, n).Success?
    ensures UnitTerm(a + b, i, n)
      == Success(Term(UnitTerm(a, i, n).value.nanoseconds, UnitTerm(a, i, n).value.rest + b))
  {
    var u := UnitEnd(a, i + 1);
    UnitAppended(a, b, i + 1);
    assert (a + b)[i..u] == a[i..u];
    assert (a + b)[u..] == a[u..] + b;
  }

  /** What follows a term does not change how it is read, if it starts with a digit. */
  lemma TermAppended(a: string, b: string)
    requires a != "" && StartsTerm(b) && ParseTerm(a).Success?
    ensures ParseTerm(a + b) == Success(Term(ParseTerm(a).value.nanoseconds, ParseTerm(a).value.rest + b))
  {
    NumberAppended(a, b);
    UnitTermAppended(a, b, FromChars(a).end, FromChars(a).value);
  }

  function Then(terms: Terms, more: Terms): Terms {
    match terms
    case NoMore => more
    case Bad(e) => terms
    case More(n, rest) => More(n, Then(rest, more))
  }

  predicate AllGood(terms: Terms) { !terms.Bad? && (terms.More? ==> AllGood(terms.rest)) }

  predicate NonNegative(terms: Terms) { terms.More? ==> terms.nanoseconds >= 0 && NonNegative(terms.rest) }

  lemma {:induction false} TermsAppended(a: string, b: string)
    requires StartsTerm(b) && AllGood(TermsOf(a))
    ensures TermsOf(a + b) == Then(TermsOf(a), TermsOf(b))
    decreases |a|
  {
    if a == "" { assert a + b == b; }
    else {
      TermAppended(a, b);
      TermsAppended(ParseTerm(a).value.rest, b);
    }
  }

  /** Only the first term of a text can be negative: the others start with a digit. */
  lemma {:induction false} LaterTermsAreNonNegative(v: string)
    requires StartsTerm(v)
    ensures NonNegative(TermsOf(v))
    decreases |v|
  {
    if v != "" && ParseTerm(v).Success? {
      TermIsNonNegative(v);
      LaterTermsAreNonNegative(ParseTerm(v).value.rest);
    }
  }

  lemma TermIsNonNegative(v: string)
    requires v != "" && IsDigit(v[0]) && ParseTerm(v).Success?
    ensures ParseTerm(v).value.nanoseconds >= 0
  {
    DigitsAreDigits(v, 0);
    DigitsAreNatural(v[0..DigitsEnd(v, 0)]);
  }

  lemma {:induction false} SumThen(terms: Terms, more: Terms, sum: int)
    requires Sum(terms, sum).Success?
    ensures AllGood(terms) && Sum(Then(terms, more), sum) == Sum(more, Sum(terms, sum).value)
    ensures IsInt64(sum) ==> IsInt64(Sum(terms, sum).value)
    decreases terms
  {
    if terms.More? { SumThen(terms.rest, more, sum + terms.nanoseconds); }
  }

  /** Terms that add up from `base` add as much from any `sum`, as long as 64 bits hold it. */
  lemma {:induction false} SumShifts(terms: Terms, base: nat, sum: int)
    requires NonNegative(terms) && IsInt64(sum) && Sum(terms, base).Success?
    ensures var added := Sum(terms, base).value - base;
      && added >= 0
      && Sum(terms, sum) == if IsInt64(sum + added) then Success(sum + added) else Failure(Overflow)
    decreases terms
  {
    if terms.More? {
      var n := terms.nanoseconds;
      SumShifts(terms.rest, base + n, if IsInt64(sum + n) then sum + n else sum);
    }
  }

  /** Two sums added, if 64 bits hold the result. */
  function Added(x: Result<int, DurationError>, y: Result<int, DurationError>): Result<int, DurationError>
    requires x.Success? && y.Success?
  {
    if IsInt64(x.value + y.value) then Success(x.value + y.value) else Failure(Overflow)
  }

  lemma SumsAdd(x: Terms, y: Terms)
    requires Sum(x, 0).Success? && Sum(y, 0).Success?
    ensures AllGood(x)
    ensures NonNegative(y) ==> Sum(Then(x, y), 0) == Added(Sum(x, 0), Sum(y, 0))
  {
    SumThen(x, y, 0);
    if NonNegative(y) { SumShifts(y, 0, Sum(x, 0).value); }
  }

  /**
   * Texts written one after the other, the second starting with a digit, add up; and exactly when
   * their sum does not fit, they overflow.
   */
  lemma DurationsAdd(a: string, b: string)
    requires StartsTerm(b) && ParseDuration(a).Success? && ParseDuration(b).Success?
    ensures ParseDuration(a + b) == Added(ParseDuration(a), ParseDuration(b))
  {
    SumsAdd(TermsOf(a), TermsOf(b));
    TermsAppended(a, b);
    LaterTermsAreNonNegative(b);
  }

  lemma {:induction false} BadTermFails(terms: Terms, sum: int)
    requires !AllGood(terms)
    ensures Sum(terms, sum).Failure?
    decreases terms
  {
    if terms.More? { BadTermFails(terms.rest, sum + terms.nanoseconds); }
  }

  lemma {:induction false} OnlyBadTermsFail(terms: Terms, sum: int)
    requires AllGood(terms)
    ensures Sum(terms, sum).Success? || Sum(terms, sum) == Failure(Overflow)
    decreases terms
  {
    if terms.More? { OnlyBadTermsFail(terms.rest, sum + terms.nanoseconds); }
  }

  /** A text that cannot be read is not made readable by another in front of it. */
  lemma BadEndingFails(a: string, b: string)
    requires StartsTerm(b) && ParseDuration(a).Success?
    requires ParseDuration(b).Failure? && ParseDuration(b).error != Overflow
    ensures ParseDuration(a + b).Failure?
  {
    SumThen(TermsOf(a), TermsOf(b), 0);
    TermsAppended(a, b);
    if AllGood(TermsOf(b)) { OnlyBadTermsFail(TermsOf(b), 0); }
    BadTermFails(TermsOf(b), ParseDuration(a).value);
  }

  method ReadTerm(v: string) returns (r: Result<Term, DurationError>)
    requires v != ""
    ensures r == ParseTerm(v)
  {
    var scanned := FromChars(v);
    if scanned.Nothing? { return Failure(BadNumber); }
    if scanned.end == |v| { return Failure(MissingUnit); }
    if scanned.OutOfRange? { return Failure(TooLarge); }
    var end := scanned.end;
    var length := UnitLength(v, end);
    var size := UnitSize(v[end..end + length]);
    if size.None? { return Failure(UnknownUnit); }
    return Success(Term(scanned.value * size.value, v[end + length..]));
  }

  method UnitLength(v: string, i: nat) returns (length: nat)
    requires i < |v|
    ensures i + length == UnitEnd(v, i + 1)
  {
    length := 1;
    while i + length < |v| && !IsDigit(v[i + length])
      invariant 1 <= length && i + length <= |v|
      invariant UnitEnd(v, i + length) == UnitEnd(v, i + 1)
    {
      length := length + 1;
    }
  }

  function AddOne(sum: int, term: Term): Result<int, DurationError> {
    if !IsInt64(term.nanoseconds) || !IsInt64(sum + term.nanoseconds) then Failure(Overflow)
    else Success(sum + term.nanoseconds)
  }

  lemma SumOne(v: string, sum: int)
    requires v != ""
    ensures ParseTerm(v).Failure? ==> Sum(TermsOf(v), sum) == Failure(ParseTerm(v).error)
    ensures ParseTerm(v).Success? && AddOne(sum, ParseTerm(v).value).Failure? ==>
      Sum(TermsOf(v), sum) == Failure(Overflow)
    ensures ParseTerm(v).Success? && AddOne(sum, ParseTerm(v).value).Success? ==>
      Sum(TermsOf(v), sum) == Sum(TermsOf(ParseTerm(v).value.rest), AddOne(sum, ParseTerm(v).value).value)
  {
    SumFirst(ParseTerm(v), TermsOf(v), sum);
  }

  lemma SumFirst(first: Result<Term, DurationError>, terms: Terms, sum: int)
    requires first.Failure? ==> terms == Bad(first.error)
    requires first.Success? ==> terms == More(first.value.nanoseconds, TermsOf(first.value.rest))
    ensures first.Failure? ==> Sum(terms, sum) == Failure(first.error)
    ensures first.Success? && AddOne(sum, first.value).Failure? ==> Sum(terms, sum) == Failure(Overflow)
    ensures first.Success? && AddOne(sum, first.value).Success? ==>
      Sum(terms, sum) == Sum(TermsOf(first.value.rest), AddOne(sum, first.value).value)
  {
  }

  /** Add the first term of `v` to the sum. */
  method AddTerm(v: string, sum: int) returns (r: Result<int, DurationError>, rest: string)
    requires v != ""
    ensures |rest| < |v|
    ensures Sum(TermsOf(v), sum) == if r.Failure? then r else Sum(TermsOf(rest), r.value)
  {
    var term := ReadTerm(v);
    SumOne(v, sum);
    if term.Failure? { return Failure(term.error), ""; }
    return AddOne(sum, term.value), term.value.rest;
  }

  method ReadDuration(value: string) returns (r: Result<int, DurationError>)
    ensures r == ParseDuration(value)
  {
    var v, sum := value, 0;
    while v != ""
      invariant Sum(TermsOf(v), sum) == ParseDuration(value)
      decreases |v|
    {
      r, v := AddTerm(v, sum);
      if r.Failure? { return; }
      sum := r.value;
    }
    return Success(sum);
  }
}
