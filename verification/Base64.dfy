/** Base64 text of a blob, block by block, and the iterator that spells it out. */
module Base64 {
  import opened Wrappers

  type Byte = n: nat | n < 256

  // ---- The encoding of section 4 of RFC 4648 ---------------------------------------------------

  const PAD := '='

  /** The alphabet. */
  function Symbol(v: nat): char
    requires v < 64
  {
    if v < 26 then 'A' + v as char
    else if v < 52 then 'a' + (v - 26) as char
    else if v < 62 then '0' + (v - 52) as char
    else if v == 62 then '+' else '/'
  }

  /** Byte `i`, or zero bits where there is none. */
  function At(bytes: seq<Byte>, i: nat): nat { if i < |bytes| then bytes[i] else 0 }

  /** The six bits number `k` of three bytes. */
  function Sextet(a: nat, b: nat, c: nat, k: nat): (r: nat)
    requires a < 256 && b < 256 && c < 256 && k < 4
    ensures r < 64
  {
    if k == 0 then a / 4
    else if k == 1 then a % 4 * 16 + b / 16
    else if k == 2 then b % 16 * 4 + c / 64
    else c % 64
  }

  /** Four characters for up to three bytes: one more than there are bytes, then padding. */
  function Block(bytes: seq<Byte>): (r: string)
    ensures |r| == 4
  {
    var a, b, c := At(bytes, 0), At(bytes, 1), At(bytes, 2);
    seq(4, k requires 0 <= k < 4 =>
      if bytes != [] && k <= |bytes| then Symbol(Sextet(a, b, c, k)) else PAD)
  }

  function Text(bytes: seq<Byte>): string {
    if bytes == [] then ""
    else if |bytes| <= 3 then Block(bytes)
    else Block(bytes) + Text(bytes[3..])
  }

  /** The size the view claims: four characters for every three bytes begun. */
  function Size(n: nat): nat { (n + 2) / 3 * 4 }

  lemma {:induction false} TextSize(bytes: seq<Byte>)
    ensures |Text(bytes)| == Size(|bytes|)
  {
    if |bytes| > 3 { TextSize(bytes[3..]); }
  }

  // ---- A decoder --------------------------------------------------------------------------------

  function ValueOf(c: char): Option<nat> {
    if 'A' <= c <= 'Z' then Some(c as int - 'A' as int)
    else if 'a' <= c <= 'z' then Some(c as int - 'a' as int + 26)
    else if '0' <= c <= '9' then Some(c as int - '0' as int + 52)
    else if c == '+' then Some(62)
    else if c == '/' then Some(63)
    else None
  }

  lemma SymbolValue(v: nat)
    requires v < 64
    ensures ValueOf(Symbol(v)) == Some(v) && Symbol(v) != PAD
  {
  }

  /** The bytes of four characters; None if they are no block. */
  function DecodeBlock(s: string): Option<seq<Byte>>
    requires |s| == 4
  {
    match (ValueOf(s[0]), ValueOf(s[1]), ValueOf(s[2]), ValueOf(s[3]))
    case (Some(v), Some(w), Some(x), Some(y)) =>
      if v < 64 && w < 64 && x < 64 && y < 64
      then Some([v * 4 + w / 16, w % 16 * 16 + x / 4, x % 4 * 64 + y]) else None
    case (Some(v), Some(w), Some(x), None) =>
      if s[3] == '=' && v < 64 && w < 64 && x < 64 then Some([v * 4 + w / 16, w % 16 * 16 + x / 4]) else None
    case (Some(v), Some(w), None, None) =>
      if s[2] == '=' && s[3] == '=' && v < 64 && w < 64 then Some([v * 4 + w / 16]) else None
    case _ => None
  }

  function Decode(s: string): Option<seq<Byte>> {
    if s == "" then Some([])
    else if |s| < 4 then None
    else
      match (DecodeBlock(s[..4]), Decode(s[4..]))
      case (Some(block), Some(rest)) => Some(block + rest)
      case _ => None
  }

  /** The characters of a block stand for its sextets, padding for none. */
  lemma BlockValues(bytes: seq<Byte>, k: nat)
    requires bytes != [] && k < 4
    ensures ValueOf(Block(bytes)[k]) ==
      if k <= |bytes| then Some(Sextet(At(bytes, 0), At(bytes, 1), At(bytes, 2), k)) else None
    ensures k > |bytes| ==> Block(bytes)[k] == PAD
  {
    SymbolValue(Sextet(At(bytes, 0), At(bytes, 1), At(bytes, 2), k));
  }

  lemma BlockComesBack(bytes: seq<Byte>)
    requires 0 < |bytes| <= 3
    ensures DecodeBlock(Block(bytes)) == Some(bytes)
  {
    var a, b, c := At(bytes, 0), At(bytes, 1), At(bytes, 2);
    BlockValues(bytes, 0);
    BlockValues(bytes, 1);
    BlockValues(bytes, 2);
    BlockValues(bytes, 3);
    SextetsJoin(a, b, c);
    assert bytes == if |bytes| == 1 then [a] else if |bytes| == 2 then [a, b] else [a, b, c];
  }

  lemma SextetsJoin(a: nat, b: nat, c: nat)
    requires a < 256 && b < 256 && c < 256
    ensures Sextet(a, b, c, 0) * 4 + Sextet(a, b, c, 1) / 16 == a
    ensures Sextet(a, b, c, 1) % 16 * 16 + Sextet(a, b, c, 2) / 4 == b
    ensures Sextet(a, b, c, 2) % 4 * 64 + Sextet(a, b, c, 3) == c
  {
  }

  lemma LongBlock(bytes: seq<Byte>)
    requires |bytes| > 3
    ensures Block(bytes) == Block(bytes[..3])
  {
  }

  /** The decoder inverts the encoding of every byte string. */
  lemma {:induction false} DecodeInverts(bytes: seq<Byte>)
    ensures Decode(Text(bytes)) == Some(bytes)
  {
    if bytes != [] {
      if |bytes| <= 3 {
        BlockComesBack(bytes);
        assert Text(bytes)[..4] == Block(bytes) && Text(bytes)[4..] == "";
        assert bytes + [] == bytes;
      } else {
        LongBlock(bytes);
        BlockComesBack(bytes[..3]);
        DecodeInverts(bytes[3..]);
        assert Text(bytes)[..4] == Block(bytes) && Text(bytes)[4..] == Text(bytes[3..]);
        assert bytes[..3] + bytes[3..] == bytes;
      }
    }
  }

  // ---- The block as it is computed -------------------------------------------------------------

  /** The accumulator after `i` bytes of a block. */
  function Gathered(a: nat, b: nat, c: nat, i: nat): nat
    requires i <= 3
  {
    if i == 0 then 0 else if i == 1 then a else if i == 2 then a * 256 + b else (a * 256 + b) * 256 + c
  }

  /** 2 to the power of so many bits, for shifts within a sextet. */
  function Power(bits: nat): (r: nat)
    ensures r > 0
  {
    if bits == 0 then 1 else if bits == 2 then 4 else if bits == 4 then 16 else 64
  }

  lemma Modulo(q: nat, x: nat)
    requires x < 64
    ensures (64 * q + x) % 64 == x
  {
  }

  lemma Second(a: nat, b: nat)
    requires b < 256
    ensures (a * 256 + b) / 16 % 64 == a % 4 * 16 + b / 16
  {
    assert (a * 256 + b) / 16 == a * 16 + b / 16;
    assert a * 16 + b / 16 == 64 * (a / 4) + (a % 4 * 16 + b / 16);
    Modulo(a / 4, a % 4 * 16 + b / 16);
  }

  lemma Third(ab: nat, b: nat, c: nat)
    requires c < 256 && ab % 16 == b % 16
    ensures (ab * 256 + c) / 64 % 64 == b % 16 * 4 + c / 64
  {
    assert (ab * 256 + c) / 64 == ab * 4 + c / 64;
    assert ab * 4 + c / 64 == 64 * (ab / 16) + (ab % 16 * 4 + c / 64);
    Modulo(ab / 16, ab % 16 * 4 + c / 64);
  }

  /** Sextet `k` is complete when `i` bytes have been gathered; it leaves `bits` of them over. */
  lemma SextetGathered(a: nat, b: nat, c: nat, i: nat, k: nat, bits: nat)
    requires a < 256 && b < 256 && c < 256
    requires 0 < i <= 3 && k < 4 && bits + 6 * (k + 1) == 8 * i && bits <= 6
    ensures Gathered(a, b, c, i) / Power(bits) % 64 == Sextet(a, b, c, k)
  {
    if i == 2 { Second(a, b); }
    if i == 3 && k == 2 { Third(a * 256 + b, b, c); }
  }

  /** The bits left over, filled up with zeros, are the next sextet. */
  lemma {:induction false} SextetLeft(a: nat, b: nat, i: nat)
    requires a < 256 && b < 256 && 0 < i < 3 && (i == 1 ==> b == 0)
    ensures Gathered(a, b, 0, i) * Power(6 - 2 * i) % 64 == Sextet(a, b, 0, i)
  {
    if i == 1 { assert a * 16 == 64 * (a / 4) + a % 4 * 16; }
    else { assert (a * 256 + b) * 4 == 64 * (a * 16 + b / 16) + b % 16 * 4; }
  }

  /** The first characters of a block are in place. */
  predicate Filled(out: array<char>, goal: string, outpos: nat)
    reads out
  {
    out.Length == |goal| == 4 && outpos <= 4 && forall k | 0 <= k < outpos :: out[k] == goal[k]
  }

  /** Put out the sextets that are complete once `i` bytes have been gathered. */
  method EmitSextets(out: array<char>, accumulator: nat, i: nat, outpos0: nat, bits0: nat, bytes: seq<Byte>)
    returns (outpos: nat, bits: nat)
    requires Filled(out, Block(bytes), outpos0) && 0 < i <= |bytes| && i <= 3
    requires accumulator == Gathered(At(bytes, 0), At(bytes, 1), At(bytes, 2), i)
    requires 6 * outpos0 + bits0 == 8 * i && 8 <= bits0 <= 12
    modifies out
    ensures Filled(out, Block(bytes), outpos) && 6 * outpos + bits == 8 * i && bits < 6
  {
    outpos, bits := outpos0, bits0;
    while bits >= 6
      invariant 0 <= bits <= 12 && 6 * outpos + bits == 8 * i && Filled(out, Block(bytes), outpos)
    {
      bits := bits - 6;
      SextetGathered(At(bytes, 0), At(bytes, 1), At(bytes, 2), i, outpos, bits);
      out[outpos] := Symbol(accumulator / Power(bits) % 64);
      outpos := outpos + 1;
    }
  }

  /** One block, computed byte by byte into `out`; the accumulator never exceeds 24 bits. */
  method ToBase64(out: array<char>, bytes: seq<Byte>)
    requires out.Length == 4
    modifies out
    ensures out[..] == Block(bytes)
  {
    ghost var a, b, c := At(bytes, 0), At(bytes, 1), At(bytes, 2);
    var outpos, bits, accumulator, i := 0, 0, 0, 0;
    while outpos < 4 && i < |bytes|
      invariant i <= 3 && i <= |bytes| && 0 <= bits < 6 && 6 * outpos + bits == 8 * i
      invariant accumulator == Gathered(a, b, c, i)
      invariant Filled(out, Block(bytes), outpos)
    {
      var byte: nat := bytes[i];
      assert accumulator < 0x1_0000;
      accumulator := accumulator * 256 + byte;
      i := i + 1;
      outpos, bits := EmitSextets(out, accumulator, i, outpos, bits + 8, bytes);
    }
    if bits > 0 {
      SextetLeft(a, b, i);
      accumulator := accumulator * Power(6 - bits);
      out[outpos] := Symbol(accumulator % 64);
      outpos := outpos + 1;
    }
    while outpos < 4
      invariant outpos <= 4 && (outpos == 4 || bytes == [] || outpos > |bytes|) && Filled(out, Block(bytes), outpos)
    {
      out[outpos] := PAD;
      outpos := outpos + 1;
    }
  }

  // ---- The iterator -----------------------------------------------------------------------------

  /** The block that holds a position is the encoding from its first byte on. */
  lemma {:induction false} TextAt(bytes: seq<Byte>, index: nat, k: nat)
    requires index < |bytes| && index % 3 == 0 && k < 4
    ensures index / 3 * 4 + k < |Text(bytes)| && Text(bytes)[index / 3 * 4 + k] == Block(bytes[index..])[k]
    decreases |bytes|
  {
    if index > 0 {
      TextAt(bytes[3..], index - 3, k);
      assert bytes[3..][index - 3..] == bytes[index..];
    } else {
      assert bytes[0..] == bytes;
    }
  }

  class Base64Iterator {
    const buffer: seq<Byte>
    const block: array<char>
    var index: nat
    var charIndex: nat

    /** At a character of a block, which has been loaded, or at the end. */
    ghost predicate Valid()
      reads this, block
    {
      && block.Length == 4 && charIndex < 4
      && if index < |buffer| then index % 3 == 0 && block[..] == Block(buffer[index..])
         else index == |buffer| && charIndex == 0
    }

    function Position(): nat
      reads this
    {
      Size(index) + charIndex
    }

    predicate AtEnd()
      reads this
    {
      index == |buffer| && charIndex == 0
    }

    constructor (buffer: seq<Byte>)
      ensures Valid() && Position() == 0 && this.buffer == buffer && fresh(block)
    {
      this.buffer := buffer;
      block := new char[4];
      index, charIndex := 0, 0;
      new;
      ToBase64(block, buffer);
      assert buffer[0..] == buffer;
    }

    /** `end - it`. */
    function Left(): int
      reads this
    {
      Size(|buffer|) - Position()
    }

    /** The end is the one position from which nothing is left; before it there always is. */
    lemma LeftAtEnd()
      requires Valid()
      ensures Left() >= 0 && (Left() == 0 <==> AtEnd())
    {
    }

    method Current() returns (c: char)
      requires Valid() && !AtEnd()
      ensures Position() < |Text(buffer)| && c == Text(buffer)[Position()]
    {
      TextAt(buffer, index, charIndex);
      assert Size(index) == index / 3 * 4;
      assert block[charIndex] == block[..][charIndex];
      c := block[charIndex];
    }

    method Increment()
      requires Valid() && !AtEnd()
      modifies this, block
      ensures Valid() && Position() == old(Position()) + 1
    {
      if charIndex == 3 {
        index := if index + 3 < |buffer| then index + 3 else |buffer|;
        charIndex := 0;
        ToBase64(block, buffer[index..]);
      } else {
        charIndex := charIndex + 1;
      }
    }
  }

  lemma OneMore(text: string, n: nat)
    ensures n < |text| ==> text[..n + 1] == text[..n] + [text[n]]
    ensures text[..|text|] == text
  {
  }

  /** Writing a view out: from begin to end, one increment for each character of the text. */
  method WriteText(bytes: seq<Byte>) returns (out: string, increments: nat)
    ensures out == Text(bytes) && increments == Size(|bytes|)
  {
    var it := new Base64Iterator(bytes);
    ghost var text := Text(bytes);
    out, increments := "", 0;
    TextSize(bytes);
    it.LeftAtEnd();
    while !it.AtEnd()
      invariant it.Valid() && it.buffer == bytes && fresh(it) && fresh(it.block)
      invariant increments == it.Position() <= |text| && out == text[..increments]
      decreases it.Left()
    {
      var c := it.Current();
      OneMore(text, increments);
      out := out + [c];
      it.Increment();
      it.LeftAtEnd();
      increments := increments + 1;
    }
    OneMore(text, increments);
  }
}
