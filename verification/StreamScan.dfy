module StreamScan {
  // The delimiter scanner: it counts how many bytes of the delimiter it has seen in a row, and
  // after a mismatch starts again with the next byte, without trying the mismatching one.

  import opened Wrappers

  type Byte = bv8

  const CR: Byte := 13
  const LF: Byte := 10
  const BLANK_LINE: seq<Byte> := [CR, LF, CR, LF]

  /** How many bytes of the delimiter are matched after one more byte. */
  function Seen(pattern: seq<Byte>, n: nat, b: Byte): (r: nat)
    requires n < |pattern|
    ensures r <= n + 1
  {
    if b == pattern[n] then n + 1 else 0
  }

  /** The count after the first `i` bytes, none of which completed the delimiter. */
  function Matched(stream: seq<Byte>, pattern: seq<Byte>, i: nat): (r: nat)
    requires i <= |stream| && pattern != []
    ensures r < |pattern|
  {
    if i == 0 then 0
    else
      var n := Seen(pattern, Matched(stream, pattern, i - 1), stream[i - 1]);
      if n == |pattern| then 0 else n
  }

  /** The byte at `i` completes the delimiter. */
  predicate Hits(stream: seq<Byte>, pattern: seq<Byte>, i: nat)
    requires i < |stream| && pattern != []
  {
    Seen(pattern, Matched(stream, pattern, i), stream[i]) == |pattern|
  }

  /** The end of the first hit at or after `i`. */
  function ScanFrom(stream: seq<Byte>, pattern: seq<Byte>, i: nat): (r: Option<nat>)
    requires i <= |stream| && pattern != []
    ensures r.Some? ==> i < r.value <= |stream| && Hits(stream, pattern, r.value - 1)
    ensures forall j | i <= j < (if r.Some? then r.value - 1 else |stream|) :: !Hits(stream, pattern, j)
    decreases |stream| - i
  {
    if i == |stream| then None
    else if Hits(stream, pattern, i) then Some(i + 1)
    else ScanFrom(stream, pattern, i + 1)
  }

  function Scan(stream: seq<Byte>, pattern: seq<Byte>): Option<nat>
    requires pattern != []
  {
    ScanFrom(stream, pattern, 0)
  }

  /** No byte before `i` completes the delimiter. */
  predicate Missed(stream: seq<Byte>, pattern: seq<Byte>, i: nat)
    requires i <= |stream| && pattern != []
  {
    forall j | 0 <= j < i :: !Hits(stream, pattern, j)
  }

  // ---- What it finds --------------------------------------------------------------------------

  predicate OccursAt(stream: seq<Byte>, pattern: seq<Byte>, p: nat) {
    p + |pattern| <= |stream| && stream[p..p + |pattern|] == pattern
  }

  /** The count is honest: so many bytes just read are the start of the delimiter. */
  lemma {:induction false} MatchedIsSuffix(stream: seq<Byte>, pattern: seq<Byte>, i: nat)
    requires i <= |stream| && pattern != []
    ensures Matched(stream, pattern, i) <= i
    ensures stream[i - Matched(stream, pattern, i)..i] == pattern[..Matched(stream, pattern, i)]
  {
    if i > 0 {
      MatchedIsSuffix(stream, pattern, i - 1);
      var m, n := Matched(stream, pattern, i - 1), Matched(stream, pattern, i);
      if n > 0 {
        assert stream[i - n..i] == stream[i - 1 - m..i - 1] + [stream[i - 1]];
        assert pattern[..n] == pattern[..m] + [pattern[m]];
      }
    }
  }

  /** Whatever the delimiter, what is found is an occurrence of it. */
  lemma FoundIsOccurrence(stream: seq<Byte>, pattern: seq<Byte>)
    requires pattern != [] && Scan(stream, pattern).Some?
    ensures Scan(stream, pattern).value >= |pattern|
    ensures OccursAt(stream, pattern, Scan(stream, pattern).value - |pattern|)
  {
    var e := Scan(stream, pattern).value;
    var m := Matched(stream, pattern, e - 1);
    MatchedIsSuffix(stream, pattern, e - 1);
    assert m + 1 == |pattern| && stream[e - 1] == pattern[m];
    assert stream[e - 1 - m..e] == stream[e - 1 - m..e - 1] + [stream[e - 1]];
    assert pattern == pattern[..m] + [pattern[m]];
  }

  predicate FirstAt(stream: seq<Byte>, pattern: seq<Byte>, p: nat) {
    OccursAt(stream, pattern, p) && forall q: nat | q < p :: !OccursAt(stream, pattern, q)
  }

  /** The number of carriage returns right before `p`. */
  function Returns(stream: seq<Byte>, p: nat): nat
    requires p <= |stream|
  {
    if p == 0 || stream[p - 1] != CR then 0 else 1 + Returns(stream, p - 1)
  }

  /** In a run of carriage returns the count goes up and is reset in turn. */
  lemma {:induction false} CountInRun(stream: seq<Byte>, p: nat)
    requires p <= |stream|
    ensures var n := Matched(stream, BLANK_LINE, p);
      if Returns(stream, p) % 2 == 1 then n == 1 || n == 3
      else if Returns(stream, p) > 0 then n == 0
      else n == 0 || n == 2
  {
    if p > 0 { CountInRun(stream, p - 1); }
  }

  /** Scanning for a blank line past the bytes of one, from the count before it. */
  lemma AcrossBlankLine(stream: seq<Byte>, p: nat)
    requires OccursAt(stream, BLANK_LINE, p)
    ensures Hits(stream, BLANK_LINE, p + 3) <==> Matched(stream, BLANK_LINE, p) == 0
  {
    assert stream[p..p + 4][0] == stream[p] && stream[p..p + 4][1] == stream[p + 1];
    assert stream[p..p + 4][2] == stream[p + 2] && stream[p..p + 4][3] == stream[p + 3];
    assert Matched(stream, BLANK_LINE, p + 3) == 3 <==> Matched(stream, BLANK_LINE, p + 2) == 2;
    assert Matched(stream, BLANK_LINE, p + 2) == 2 <==> Matched(stream, BLANK_LINE, p + 1) == 1;
    assert Matched(stream, BLANK_LINE, p + 1) == 1 <==> Matched(stream, BLANK_LINE, p) == 0;
  }

  /** A count of two before a blank line: it starts in the middle of another, which was found. */
  lemma Halfway(stream: seq<Byte>, p: nat)
    requires OccursAt(stream, BLANK_LINE, p)
    ensures Matched(stream, BLANK_LINE, p) == 2 ==> Hits(stream, BLANK_LINE, p + 1)
  {
    if Matched(stream, BLANK_LINE, p) == 2 {
      MatchedIsSuffix(stream, BLANK_LINE, p);
      assert stream[p - 2..p + 2] == stream[p - 2..p] + stream[p..p + 4][..2];
      assert stream[p - 2..p + 2] == BLANK_LINE;
      assert Matched(stream, BLANK_LINE, p - 1) == 1;
      assert Matched(stream, BLANK_LINE, p - 2) == 0;
      AcrossBlankLine(stream, p - 2);
    }
  }

  /** A hit ends a blank line that an even number of carriage returns precedes. */
  lemma HitsBlankLine(stream: seq<Byte>, i: nat)
    requires i < |stream| && Hits(stream, BLANK_LINE, i)
    ensures i >= 3 && OccursAt(stream, BLANK_LINE, i - 3) && Returns(stream, i - 3) % 2 == 0
  {
    MatchedIsSuffix(stream, BLANK_LINE, i);
    assert stream[i - 3..i + 1] == stream[i - 3..i] + [stream[i]];
    assert BLANK_LINE == BLANK_LINE[..3] + [LF];
    AcrossBlankLine(stream, i - 3);
    CountInRun(stream, i - 3);
  }

  /** The blank line at `p` is passed over: an odd number of carriage returns stands before it. */
  predicate PassedOver(stream: seq<Byte>, p: nat)
    requires p <= |stream|
  {
    Returns(stream, p) % 2 == 1
  }

  /** All blank lines that end by `limit` are passed over. */
  predicate AllPassedOver(stream: seq<Byte>, limit: nat) {
    forall p | 0 <= p <= |stream| - 4 && p + 4 <= limit && OccursAt(stream, BLANK_LINE, p) :: PassedOver(stream, p)
  }

  /** No byte before `limit` completes a blank line exactly when all that end there are passed over. */
  lemma MissedIffPassedOver(stream: seq<Byte>, limit: nat)
    requires limit <= |stream|
    ensures Missed(stream, BLANK_LINE, limit) <==> AllPassedOver(stream, limit)
  {
    if AllPassedOver(stream, limit) {
      forall i | 0 <= i < limit ensures !Hits(stream, BLANK_LINE, i) {
        if Hits(stream, BLANK_LINE, i) { HitsBlankLine(stream, i); }
      }
    }
    if Missed(stream, BLANK_LINE, limit) {
      forall p | 0 <= p <= |stream| - 4 && p + 4 <= limit && OccursAt(stream, BLANK_LINE, p)
        ensures PassedOver(stream, p)
      {
        MissedIsPassedOver(stream, p);
      }
    }
  }

  lemma MissedIsPassedOver(stream: seq<Byte>, p: nat)
    requires OccursAt(stream, BLANK_LINE, p) && Missed(stream, BLANK_LINE, p + 4)
    ensures PassedOver(stream, p)
  {
    AcrossBlankLine(stream, p);
    assert !Hits(stream, BLANK_LINE, p + 3);
    CountInRun(stream, p);
    Halfway(stream, p);
  }

  /**
   * The scanner stops at the first blank line that an even number of CRs stands right before,
   * and at no other.
   */
  lemma BlankLineFoundIff(stream: seq<Byte>, p: nat)
    requires p + 4 <= |stream|
    ensures Scan(stream, BLANK_LINE) == Some(p + 4) <==>
      OccursAt(stream, BLANK_LINE, p) && !PassedOver(stream, p) && AllPassedOver(stream, p + 3)
  {
    MissedIffPassedOver(stream, p + 3);
    if Hits(stream, BLANK_LINE, p + 3) { HitsBlankLine(stream, p + 3); }
    if OccursAt(stream, BLANK_LINE, p) && !PassedOver(stream, p) && Missed(stream, BLANK_LINE, p + 3) {
      if !Hits(stream, BLANK_LINE, p + 3) { MissedIsPassedOver(stream, p); }
    }
  }

  /** It finds nothing exactly when all blank lines are passed over. */
  lemma NoBlankLineFoundIff(stream: seq<Byte>)
    ensures Scan(stream, BLANK_LINE) == None <==> AllPassedOver(stream, |stream|)
  {
    MissedIffPassedOver(stream, |stream|);
  }

  /** For one: in CR CR LF CR LF the blank line that starts at the second byte is passed over. */
  lemma PassesOverOne()
    ensures OccursAt([CR, CR, LF, CR, LF], BLANK_LINE, 1) && Scan([CR, CR, LF, CR, LF], BLANK_LINE) == None
  {
    var stream := [CR, CR, LF, CR, LF];
    assert stream[1..5] == BLANK_LINE;
    assert Returns(stream, 1) == 1;
    forall p | 0 <= p <= 1 && OccursAt(stream, BLANK_LINE, p) ensures PassedOver(stream, p) {
      assert stream[0..4][1] == CR;
    }
    NoBlankLineFoundIff(stream);
  }

  /** Every CR is followed by LF, as section 2.2 of RFC 9112 asks of the sender. */
  predicate NoBareReturn(stream: seq<Byte>) {
    forall i | 0 <= i < |stream| - 1 && stream[i] == CR :: stream[i + 1] == LF
  }

  lemma BlankLineFoundWithoutBareReturns(stream: seq<Byte>, p: nat)
    requires NoBareReturn(stream) && FirstAt(stream, BLANK_LINE, p)
    ensures Scan(stream, BLANK_LINE) == Some(p + 4)
  {
    assert stream[p..p + 4][0] == stream[p] == CR;
    assert p > 0 ==> stream[p - 1] != CR;
    assert !PassedOver(stream, p);
    BlankLineFoundIff(stream, p);
  }

  // ---- What read_until gives ------------------------------------------------------------------

  /**
   * Found: the bytes through the delimiter. Closed: the stream had ended. FellOff: the loop over
   * `limit` bytes ends and nothing is returned. PastWindow: the stream ended after some bytes, and
   * a byte behind them is read. Exhausted: the buffer may not grow as asked.
   */
  datatype Outcome = Found(bytes: seq<Byte>) | Closed | FellOff | PastWindow | Exhausted

  /** The outcome for a stream, however it arrives. */
  function Until(stream: seq<Byte>, pattern: seq<Byte>, limit: nat): Outcome
    requires pattern != []
  {
    if stream == [] then Closed
    else
      match Scan(stream, pattern)
      case Some(e) => if e <= limit then Found(stream[..e]) else FellOff
      case None => if limit <= |stream| then FellOff else PastWindow
  }

  lemma MissedOne(stream: seq<Byte>, pattern: seq<Byte>, i: nat)
    requires i < |stream| && pattern != [] && Missed(stream, pattern, i)
    ensures Hits(stream, pattern, i) <==>
      stream[i] == pattern[Matched(stream, pattern, i)] && Matched(stream, pattern, i) + 1 == |pattern|
    ensures !Hits(stream, pattern, i) ==>
      && Missed(stream, pattern, i + 1)
      && Matched(stream, pattern, i + 1)
         == if stream[i] == pattern[Matched(stream, pattern, i)] then Matched(stream, pattern, i) + 1 else 0
  {
  }

  lemma UntilFound(stream: seq<Byte>, pattern: seq<Byte>, limit: nat, i: nat)
    requires pattern != [] && i < |stream| && i < limit && Missed(stream, pattern, i) && Hits(stream, pattern, i)
    ensures Until(stream, pattern, limit) == Found(stream[..i + 1])
  {
  }

  /** What is given without the delimiter, in the scanner's terms: exactly when. */
  lemma UntilNothing(stream: seq<Byte>, pattern: seq<Byte>, limit: nat)
    requires pattern != [] && stream != []
    ensures Until(stream, pattern, limit) == FellOff <==> limit <= |stream| && Missed(stream, pattern, limit)
    ensures Until(stream, pattern, limit) == PastWindow <==> limit > |stream| && Missed(stream, pattern, |stream|)
  {
  }

  /**
   * What read_until gives for the blank line, for every stream and limit: the bytes through the
   * first blank line that is not passed over, if it ends within the limit; otherwise nothing, or
   * with a stream shorter than the limit a byte behind its window.
   */
  lemma UntilBlankLine(stream: seq<Byte>, limit: nat)
    requires stream != []
    ensures forall p: nat | p + 4 <= |stream| ::
      (Until(stream, BLANK_LINE, limit) == Found(stream[..p + 4]) <==>
         p + 4 <= limit && OccursAt(stream, BLANK_LINE, p) && !PassedOver(stream, p) && AllPassedOver(stream, p + 3))
    ensures Until(stream, BLANK_LINE, limit) == FellOff <==> limit <= |stream| && AllPassedOver(stream, limit)
    ensures Until(stream, BLANK_LINE, limit) == PastWindow <==> limit > |stream| && AllPassedOver(stream, |stream|)
  {
    UntilNothing(stream, BLANK_LINE, limit);
    if limit <= |stream| { MissedIffPassedOver(stream, limit); }
    MissedIffPassedOver(stream, |stream|);
    forall p: nat | p + 4 <= |stream|
      ensures Until(stream, BLANK_LINE, limit) == Found(stream[..p + 4]) <==>
        p + 4 <= limit && OccursAt(stream, BLANK_LINE, p) && !PassedOver(stream, p) && AllPassedOver(stream, p + 3)
    {
      BlankLineFoundIff(stream, p);
      var scanned := Scan(stream, BLANK_LINE);
      if scanned.Some? { assert |stream[..scanned.value]| == scanned.value; }
      assert |stream[..p + 4]| == p + 4;
    }
  }

  /** For one: a stream of two bytes without the delimiter, and a larger limit. */
  lemma ReadsPastWindow()
    ensures Until([CR, LF], BLANK_LINE, 3) == PastWindow
  {
    UntilBlankLine([CR, LF], 3);
  }

  lemma ByteHits(stream: seq<Byte>, b: Byte, i: nat)
    requires i < |stream|
    ensures Hits(stream, [b], i) <==> stream[i] == b
  {
  }

  lemma FoundIffHits(stream: seq<Byte>, pattern: seq<Byte>, p: nat)
    requires p < |stream| && pattern != []
    ensures Scan(stream, pattern) == Some(p + 1) <==> Hits(stream, pattern, p) && Missed(stream, pattern, p)
  {
  }

  /** For a single byte there is nothing to overlook: the scanner stops at its first occurrence. */
  lemma ByteFoundIff(stream: seq<Byte>, b: Byte, p: nat)
    requires p < |stream|
    ensures Scan(stream, [b]) == Some(p + 1) <==> stream[p] == b && b !in stream[..p]
  {
    FoundIffHits(stream, [b], p);
    ByteHits(stream, b, p);
    if Missed(stream, [b], p) {
      if i: nat :| i < p && stream[i] == b { ByteHits(stream, b, i); }
    }
    if b !in stream[..p] {
      forall j | 0 <= j < p ensures !Hits(stream, [b], j) {
        assert stream[j] in stream[..p];
        ByteHits(stream, b, j);
      }
    }
  }

  /**
   * The header of a message whose sender writes no bare CR is delivered whole, whenever its
   * blank line ends within the limit.
   */
  lemma HeaderDelivered(stream: seq<Byte>, p: nat, limit: nat)
    requires NoBareReturn(stream) && FirstAt(stream, BLANK_LINE, p) && p + 4 <= limit
    ensures Until(stream, BLANK_LINE, limit) == Found(stream[..p + 4])
  {
    BlankLineFoundWithoutBareReturns(stream, p);
  }
}
