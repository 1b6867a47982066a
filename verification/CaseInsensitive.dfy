/** Comparing names without regard to case, and the ordered map of headers that relies on it. */
module CaseInsensitive {
  import opened Wrappers
  import opened Chars

  /** What is left of a difference of sizes when it is returned as a 32-bit int. */
  function ToInt32(n: int): (r: int)
    ensures -0x8000_0000 <= r < 0x8000_0000 && (r - n) % 0x1_0000_0000 == 0
  {
    (n + 0x8000_0000) % 0x1_0000_0000 - 0x8000_0000
  }

  function Compare(a: string, b: string): int {
    if a == "" || b == "" then ToInt32(|a| - |b|)
    else if Upper(a[0]) != Upper(b[0]) then Upper(a[0]) as int - Upper(b[0]) as int
    else Compare(a[1..], b[1..])
  }

  predicate Less(a: string, b: string) { Compare(a, b) < 0 }

  /** CaseInsensitiveCompare, as it loops. */
  method CompareNames(a: string, b: string) returns (r: int)
    ensures r == Compare(a, b)
  {
    if a == "" && b == "" { return 0; }
    var i := 0;
    while i < |a| && i < |b|
      invariant 0 <= i <= |a| && i <= |b|
      invariant Compare(a[i..], b[i..]) == Compare(a, b)
    {
      var l, u := Upper(a[i]), Upper(b[i]);
      if l != u { return l as int - u as int; }
      assert a[i..][1..] == a[i + 1..] && b[i..][1..] == b[i + 1..];
      i := i + 1;
    }
    return ToInt32(|a| - |b|);
  }

  /** CaseInsensitiveEqual, as it loops. */
  method EqualNames(a: string, b: string) returns (equal: bool)
    ensures equal <==> Fold(a) == Fold(b)
    ensures equal <==> SameLetters(a, b)
  {
    FoldIff(a, b);
    if |a| != |b| { return false; }
    var i := 0;
    while i < |a|
      invariant 0 <= i <= |a|
      invariant Fold(a) == Fold(b) <==> Fold(a[i..]) == Fold(b[i..])
    {
      assert a[i..][1..] == a[i + 1..] && b[i..][1..] == b[i + 1..];
      FoldHeads(a[i..], b[i..]);
      if Upper(a[i]) != Upper(b[i]) { return false; }
      i := i + 1;
    }
    return true;
  }

  lemma {:induction false} FoldHeads(a: string, b: string)
    requires a != "" && b != ""
    ensures Fold(a) == Fold(b) <==> Upper(a[0]) == Upper(b[0]) && Fold(a[1..]) == Fold(b[1..])
  {
    assert Fold(a)[0] == Upper(a[0]) && Fold(b)[0] == Upper(b[0]);
    assert Fold(a)[1..] == Fold(a[1..]) && Fold(b)[1..] == Fold(b[1..]);
  }

  // ---- A strict weak order, on names of ordinary length ----------------------------------------

  predicate Short(s: string) { |s| < 0x8000_0000 }

  /** One name continues the other, ignoring case. */
  predicate Continues(a: string, b: string) {
    a == "" || b == "" || (Upper(a[0]) == Upper(b[0]) && Continues(a[1..], b[1..]))
  }

  /** Names compare equal exactly when they are; but for a multiple of 2^32 more characters. */
  lemma {:induction false} CompareZeroIff(a: string, b: string)
    ensures Compare(a, b) == 0 <==> Continues(a, b) && (|a| - |b|) % 0x1_0000_0000 == 0
    decreases |a|
  {
    if a != "" && b != "" { CompareZeroIff(a[1..], b[1..]); }
  }

  lemma BothNegative(n: int)
    ensures ToInt32(n) < 0 && ToInt32(-n) < 0 <==> n % 0x1_0000_0000 == 0x8000_0000
  {
  }

  /** Each of two names is less than the other: only when they differ in length by 2^31, modulo 2^32. */
  lemma {:induction false} BothLessIff(a: string, b: string)
    ensures Less(a, b) && Less(b, a) <==> Continues(a, b) && (|a| - |b|) % 0x1_0000_0000 == 0x8000_0000
    decreases |a|
  {
    if a != "" && b != "" { BothLessIff(a[1..], b[1..]); } else { BothNegative(|a| - |b|); }
  }

  /** For one: a name of 2^31 characters and the empty name. */
  lemma LongNameBothLess(a: string)
    requires |a| == 0x8000_0000
    ensures Less(a, "") && Less("", a)
  {
    BothLessIff(a, "");
  }

  /** Up to `k` the names agree; there one ends, or they have different letters. */
  predicate PartsAt(a: string, b: string, k: nat) {
    && k <= |a| && k <= |b| && SameLetters(a[..k], b[..k])
    && (k == |a| || k == |b| || !SameLetter(a[k], b[k]))
  }

  /** There is one such place. */
  lemma {:induction false} PartsSomewhere(a: string, b: string) returns (k: nat)
    ensures PartsAt(a, b, k)
    decreases |a|
  {
    if a != "" && b != "" && SameLetter(a[0], b[0]) {
      var j := PartsSomewhere(a[1..], b[1..]);
      k := j + 1;
      assert forall i | 0 < i < k :: a[..k][i] == a[1..][..j][i - 1] && b[..k][i] == b[1..][..j][i - 1];
    } else {
      k := 0;
    }
  }

  /** The comparison is by the capitals of the letters where the names part, else by their lengths. */
  lemma {:induction false} CompareAt(a: string, b: string, k: nat)
    requires PartsAt(a, b, k)
    ensures Compare(a, b) ==
      if k < |a| && k < |b| then Upper(a[k]) as int - Upper(b[k]) as int else ToInt32(|a| - |b|)
    ensures k < |a| && k < |b| ==> Upper(a[k]) != Upper(b[k])
    decreases k
  {
    if k > 0 {
      assert a[..k][0] == a[0] && b[..k][0] == b[0];
      UpperIs(a[0], b[0]);
      assert a[1..][..k - 1] == a[..k][1..] && b[1..][..k - 1] == b[..k][1..];
      CompareAt(a[1..], b[1..], k - 1);
    } else if a != "" && b != "" {
      UpperIs(a[0], b[0]);
    }
  }

  /**
   * On names shorter than 2^31: one is less than another exactly when they part at letters of which
   * its own has the smaller capital, or it ends where the other goes on.
   */
  lemma LessIff(a: string, b: string, k: nat)
    requires Short(a) && Short(b) && PartsAt(a, b, k)
    ensures Less(a, b) <==>
      if k < |a| && k < |b| then Upper(a[k]) < Upper(b[k]) else k == |a| < |b|
  {
    CompareAt(a, b, k);
  }

  lemma {:induction false} ContinuesEqual(a: string, b: string)
    ensures |a| == |b| ==> (Continues(a, b) <==> Fold(a) == Fold(b))
    decreases |a|
  {
    if a != "" && b != "" {
      FoldHeads(a, b);
      ContinuesEqual(a[1..], b[1..]);
    }
  }

  lemma EqualIffSameFold(a: string, b: string)
    requires Short(a) && Short(b)
    ensures Compare(a, b) == 0 <==> Fold(a) == Fold(b)
  {
    CompareZeroIff(a, b);
    ContinuesEqual(a, b);
  }

  lemma {:induction false} Antisymmetric(a: string, b: string)
    requires Short(a) && Short(b)
    ensures Less(a, b) <==> Compare(b, a) > 0
    decreases |a|
  {
    if a != "" && b != "" { Antisymmetric(a[1..], b[1..]); }
  }

  /** Less goes on through less or equal, on either side. */
  lemma {:induction false} Transitive(a: string, b: string, c: string)
    requires Short(a) && Short(b) && Short(c)
    ensures Compare(a, b) <= 0 && Compare(b, c) <= 0 ==> Compare(a, c) <= 0
    ensures Compare(a, b) <= 0 && Compare(b, c) <= 0 && (Less(a, b) || Less(b, c)) ==> Less(a, c)
    decreases |a|
  {
    if a != "" && b != "" && c != "" { Transitive(a[1..], b[1..], c[1..]); }
  }

  /**
   * On names shorter than 2^31 the comparator is a strict weak order, and two names are
   * equivalent under it exactly when they are equal ignoring case.
   */
  lemma StrictWeakOrder(a: string, b: string, c: string)
    requires Short(a) && Short(b) && Short(c)
    ensures !Less(a, a)
    ensures Less(a, b) && Less(b, c) ==> Less(a, c)
    ensures !Less(a, b) && !Less(b, a) <==> Fold(a) == Fold(b)
    ensures !Less(a, b) && !Less(b, a) && !Less(b, c) && !Less(c, b) ==> !Less(a, c) && !Less(c, a)
  {
    Trichotomy(a, b);
    Trichotomy(a, a);
    Trichotomy(b, c);
    Trichotomy(a, c);
    Transitive(a, b, c);
  }

  lemma Trichotomy(a: string, b: string)
    requires Short(a) && Short(b)
    ensures !Less(a, b) && !Less(b, a) <==> Fold(a) == Fold(b)
    ensures !(Less(a, b) && Less(b, a))
  {
    EqualIffSameFold(a, b);
    Antisymmetric(a, b);
    Antisymmetric(b, a);
  }

  // ---- The map --------------------------------------------------------------------------------

  /** A map ordered by the comparator, its entries in order. */
  datatype Headers = NoHeaders | Header(name: string, value: string, rest: Headers)

  function Find(m: Headers, name: string): Option<string> {
    if m.NoHeaders? then None
    else if Less(m.name, name) then Find(m.rest, name)
    else if Less(name, m.name) then None
    else Some(m.value)
  }

  /** An entry with an equivalent key stays as it is. */
  function Insert(m: Headers, name: string, value: string): Headers {
    if m.NoHeaders? then Header(name, value, m)
    else if Less(m.name, name) then Header(m.name, m.value, Insert(m.rest, name, value))
    else if Less(name, m.name) then Header(name, value, m)
    else m
  }

  predicate Sorted(m: Headers) {
    m.Header? ==> Short(m.name) && Sorted(m.rest) && (m.rest.Header? ==> Less(m.name, m.rest.name))
  }

  lemma {:induction false} InsertSorted(m: Headers, name: string, value: string)
    requires Sorted(m) && Short(name)
    ensures Sorted(Insert(m, name, value))
  {
    if m.Header? && Less(m.name, name) { InsertSorted(m.rest, name, value); }
  }

  lemma {:induction false} FindInserted(m: Headers, name: string, value: string, q: string)
    requires Sorted(m) && Short(name) && Short(q)
    ensures Find(Insert(m, name, value), q)
      == if Find(m, q).None? && Fold(q) == Fold(name) then Some(value) else Find(m, q)
  {
    StrictWeakOrder(q, name, q);
    if m.Header? {
      StrictWeakOrder(m.name, name, q);
      StrictWeakOrder(m.name, q, name);
      StrictWeakOrder(name, m.name, q);
      StrictWeakOrder(q, m.name, name);
      StrictWeakOrder(q, name, m.name);
      StrictWeakOrder(name, q, m.name);
      if Less(m.name, name) { FindInserted(m.rest, name, value, q); }
    }
  }
}
