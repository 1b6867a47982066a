/** The buffered reader: a read window and a write window side by side in one growing buffer. */
module CoReaders {
  import opened Wrappers
  import opened StreamScan

  /** Hands over its bytes in pieces of its own choosing, at least one while any are left. */
  class Source {
    var remaining: seq<Byte>
    var calls: nat
    const pieces: nat -> nat

    constructor (bytes: seq<Byte>, pieces: nat -> nat)
      ensures remaining == bytes && this.pieces == pieces
    {
      remaining, calls := bytes, 0;
      this.pieces := pieces;
    }

    predicate Good()
      reads this
    {
      remaining != []
    }

    function Least(a: nat, b: nat): nat { if a < b then a else b }

    /** Fill at most `size` bytes of `into` from `at` on. */
    method Read(into: array<Byte>, at: nat, size: nat) returns (n: nat)
      requires at + size <= into.Length
      modifies this, into
      ensures n <= size && n <= |old(remaining)| && (size > 0 && old(remaining) != [] ==> n > 0)
      ensures remaining == old(remaining)[n..]
      ensures into[..at] == old(into[..at]) && into[at..at + n] == old(remaining)[..n]
    {
      var most := Least(size, |remaining|);
      n := Least(pieces(calls), most);
      if n == 0 && most > 0 { n := 1; }
      calls := calls + 1;
      var i := 0;
      while i < n
        invariant 0 <= i <= n && remaining == old(remaining)
        invariant into[..at] == old(into[..at])
        invariant into[at..at + i] == remaining[..i]
      {
        into[at + i] := remaining[i];
        i := i + 1;
      }
      remaining := remaining[n..];
    }
  }

  /** The window after `n` more bytes were written behind it. */
  lemma WindowGrows(was: seq<Byte>, now: seq<Byte>, r: nat, w: nat, bytes: seq<Byte>, n: nat)
    requires r <= w && w + n <= |was| == |now| && n <= |bytes|
    requires was[..w] == now[..w] && now[w..w + n] == bytes[..n]
    ensures now[r..w + n] == was[r..w] + bytes[..n]
  {
    assert now[r..w] == now[..w][r..] == was[..w][r..] == was[r..w];
  }

  /** The first `n` bytes left in the source have moved to the end of the window. */
  lemma Pulled(given: seq<Byte>, window: seq<Byte>, now: seq<Byte>, bytes: seq<Byte>, n: nat)
    requires n <= |bytes| && now == window + bytes[..n]
    ensures given + now == (given + window) + bytes[..n]
    ensures now + bytes[n..] == window + bytes
  {
  }

  class CoReader {
    const source: Source
    const maximum: nat
    const blockSize: nat
    var buffer: array<Byte>
    var readAt: nat
    var readSize: nat
    var writeAt: nat
    var writeSize: nat
    ghost var delivered: seq<Byte>
    ghost var pulled: seq<Byte>

    /** The windows are adjacent and in bounds, and every byte pulled was delivered or is waiting. */
    ghost predicate Valid()
      reads this, buffer
    {
      && 0 < buffer.Length && 0 < blockSize
      && readAt + readSize == writeAt && writeAt + writeSize <= buffer.Length
      && (writeSize > 0 ==> writeAt + writeSize == buffer.Length)
      && delivered + Window() == pulled
    }

    function Window(): seq<Byte>
      requires readAt + readSize <= buffer.Length
      reads this, buffer
    {
      buffer[readAt..readAt + readSize]
    }

    /** All that is still to be delivered: what waits, then what the source has left. */
    ghost function Rest(): seq<Byte>
      requires Valid()
      reads this, buffer, source
    {
      Window() + source.remaining
    }

    predicate Good()
      reads this, source
    {
      readSize > 0 || source.Good()
    }

    /** Neither moving the window nor growing the buffer can make room for `size` more bytes. */
    predicate Cramped(size: nat)
      reads this
    {
      size > writeSize + readAt && buffer.Length + size - writeSize > maximum
    }

    /** A scan of `limit` bytes that reaches the end of the window is refused more. */
    predicate Starved(limit: nat)
      reads this, source
    {
      readSize < limit && Good() && Cramped(limit - readSize)
    }

    constructor (source: Source, size: nat, maximum: nat, blockSize: nat)
      requires size > 0 && blockSize > 0
      ensures Valid() && fresh(buffer) && Rest() == source.remaining && delivered == []
      ensures this.source == source && this.maximum == maximum && this.blockSize == blockSize
    {
      this.source, this.maximum, this.blockSize := source, maximum, blockSize;
      buffer := new Byte[size];
      readAt, readSize, writeAt, writeSize := 0, 0, 0, 0;
      delivered, pulled := [], [];
    }

    /** Copy bytes to the front, forward, so that they may overlap their old place. */
    method CopyToFront(into: array<Byte>)
      requires readAt + readSize <= buffer.Length && readSize <= into.Length
      modifies into
      ensures into[..readSize] == old(Window())
    {
      var i := 0;
      while i < readSize
        invariant 0 <= i <= readSize && readAt + readSize <= buffer.Length
        invariant into[..i] == old(Window())[..i]
        invariant forall k | readAt + i <= k < readAt + readSize :: buffer[k] == old(buffer[k])
      {
        into[i] := buffer[readAt + i];
        i := i + 1;
      }
    }

    method ReallocBuffers(total: nat) returns (ok: bool)
      requires Valid() && readSize <= total && total > 0
      modifies this`buffer, this`readAt, this`writeAt, this`writeSize
      ensures Valid() && Window() == old(Window()) && (fresh(buffer) || buffer == old(buffer))
      ensures ok <==> total <= maximum
      ensures ok ==> readSize + writeSize == buffer.Length >= total && readAt == 0
      ensures ok ==> buffer.Length <= maximum && (buffer.Length >= 2 * old(buffer.Length) || buffer.Length == maximum)
      ensures !ok ==> writeSize == old(writeSize)
    {
      if total > maximum { return false; }
      var size := buffer.Length * 2;
      while size < total
        invariant 0 < size
        decreases total - size
      {
        size := size * 2;
      }
      size := if size < maximum then size else maximum;
      var grown := new Byte[size];
      CopyToFront(grown);
      assert grown[0..readSize] == old(Window());
      buffer := grown;
      readAt, writeAt, writeSize := 0, readSize, size - readSize;
      return true;
    }

    /** Make room to write, by moving the window to the front or into a larger buffer. */
    method AdjustBuffers(room: nat) returns (ok: bool)
      requires Valid()
      modifies this`buffer, this`readAt, this`writeAt, this`writeSize, buffer
      ensures Valid() && Window() == old(Window()) && (fresh(buffer) || buffer == old(buffer))
      ensures ok ==> room <= writeSize
      ensures !ok <==> old(Cramped(room))
    {
      if room <= writeSize { return true; }
      var extra := room - writeSize;
      if readAt < extra {
        ok := ReallocBuffers(buffer.Length + extra);
        return;
      }
      CopyToFront(buffer);
      assert buffer[0..readSize] == old(Window());
      readAt, writeAt, writeSize := 0, readSize, buffer.Length - readSize;
      return true;
    }

    method LoadBuffer(size: nat) returns (ok: bool)
      requires Valid()
      modifies this, buffer, source
      ensures Valid() && Rest() == old(Rest()) && delivered == old(delivered)
      ensures (fresh(buffer) || buffer == old(buffer))
      ensures readSize >= old(readSize) && (ok && size > 0 && old(source.Good()) ==> readSize > old(readSize))
      ensures ok && !old(source.Good()) ==> readSize == old(readSize)
      ensures !ok <==> old(Cramped(size))
      ensures ok ==> readSize <= old(readSize) + size <= readSize + writeSize
    {
      ok := AdjustBuffers(size);
      if ok { Pull(size); }
    }

    /** One read of the source into the write window. */
    method Pull(size: nat)
      requires Valid() && size <= writeSize
      modifies this`writeAt, this`writeSize, this`readSize, this`pulled, buffer, source
      ensures Valid() && Rest() == old(Rest())
      ensures old(readSize) <= readSize <= old(readSize) + size && readSize + writeSize == old(readSize + writeSize)
      ensures if old(source.Good()) then size > 0 ==> readSize > old(readSize) else readSize == old(readSize)
    {
      ghost var bytes, window := source.remaining, Window();
      var n := Fill(size);
      writeAt, writeSize, readSize := writeAt + n, writeSize - n, readSize + n;
      pulled := pulled + bytes[..n];
      Pulled(delivered, window, Window(), bytes, n);
    }

    /** The source writes behind the read window. */
    method Fill(size: nat) returns (n: nat)
      requires readAt + readSize == writeAt && writeAt + size <= buffer.Length
      modifies buffer, source
      ensures n <= size && n <= |old(source.remaining)| && (size > 0 && old(source.Good()) ==> n > 0)
      ensures source.remaining == old(source.remaining)[n..]
      ensures buffer[readAt..readAt + (readSize + n)] == old(Window()) + old(source.remaining)[..n]
    {
      ghost var bytes, before := source.remaining, buffer[..];
      n := source.Read(buffer, writeAt, size);
      WindowGrows(before, buffer[..], readAt, writeAt, bytes, n);
    }

    /** Hand over the first bytes of the window. */
    method Deliver(n: nat) returns (bytes: seq<Byte>)
      requires Valid() && n <= readSize
      modifies this`readAt, this`readSize, this`delivered
      ensures Valid() && bytes == old(Rest())[..n] && Rest() == old(Rest())[n..]
      ensures delivered == old(delivered) + bytes
    {
      bytes := buffer[readAt..readAt + n];
      assert Window() == bytes + buffer[readAt + n..readAt + readSize];
      delivered := delivered + bytes;
      readAt, readSize := readAt + n, readSize - n;
    }

    method Read(count: nat) returns (r: Option<seq<Byte>>)
      requires Valid()
      modifies this, buffer, source
      ensures Valid() && (fresh(buffer) || buffer == old(buffer))
      ensures r == None <==> old(readSize) < count && old(Cramped(count - readSize))
      ensures r == None ==> Rest() == old(Rest()) && delivered == old(delivered)
      ensures r.Some? ==>
        && |r.value| <= count && old(Rest()) == r.value + Rest() && delivered == old(delivered) + r.value
        && (|r.value| < count ==> readSize == 0)
        && (count > 0 && old(Good()) ==> r.value != [])
        && (old(readSize) < count && old(source.Good()) ==> |r.value| > old(readSize))
    {
      if readSize < count {
        var ok := LoadBuffer(count - readSize);
        if !ok { return None; }
      }
      var bytes := Deliver(if count < readSize then count else readSize);
      r := Some(bytes);
    }

    /** Make the byte at `i` of the window available, if the stream has it. */
    method Reach(i: nat, limit: nat) returns (failed: Option<Outcome>)
      requires Valid() && i <= readSize && i < limit
      modifies this, buffer, source
      ensures Valid() && (fresh(buffer) || buffer == old(buffer))
      ensures Rest() == old(Rest()) && delivered == old(delivered)
      ensures i <= readSize && (failed == None ==> i < readSize && i < |Rest()|)
      ensures failed.Some? && failed.value != Exhausted ==>
        |Rest()| == i && failed.value == (if i == 0 then Closed else PastWindow)
      ensures failed == Some(Exhausted) <==> i == old(readSize) && old(Starved(limit))
      ensures failed == None ==> Starved(limit) == old(Starved(limit))
      ensures failed == None && old(Starved(limit)) ==> readSize == old(readSize)
    {
      if i < readSize { return None; }
      if !Good() { return Some(Closed); }
      var ok := LoadBuffer(limit - i);
      if !ok { return Some(Exhausted); }
      return if i >= readSize then Some(PastWindow) else None;
    }

    /** The state while a stream is scanned: nothing of it delivered, `i` bytes of it loaded. */
    ghost predicate Scanning(stream: seq<Byte>, given: seq<Byte>, i: nat)
      reads this, buffer, source
    {
      forall n :: OpenScanning(n) ==> Valid() && Rest() == stream && delivered == given && i <= readSize
    }

    ghost predicate OpenScanning(n: int) { true }

    /** The count after the byte at `i`, which is loaded if it is not there yet. */
    method Advance(pattern: seq<Byte>, seen: nat, i: nat, limit: nat, ghost stream: seq<Byte>, ghost given: seq<Byte>)
      returns (failed: Option<Outcome>, n: nat)
      requires Scanning(stream, given, i) && seen < |pattern| && i < limit
      modifies this, buffer, source
      ensures (fresh(buffer) || buffer == old(buffer))
      ensures failed == None ==>
        Scanning(stream, given, i + 1) && i < |stream| && n == Seen(pattern, seen, stream[i])
      ensures failed.Some? ==> Scanning(stream, given, i)
      ensures failed.Some? && failed.value != Exhausted ==>
        |stream| == i && failed.value == (if i == 0 then Closed else PastWindow)
      ensures failed == Some(Exhausted) <==> i == old(readSize) && old(Starved(limit))
      ensures failed == None ==> Starved(limit) == old(Starved(limit))
      ensures failed == None && old(Starved(limit)) ==> readSize == old(readSize)
    {
      assert OpenScanning(0);
      n := 0;
      failed := Reach(i, limit);
      if failed == None {
        assert stream[i] == Window()[i] == buffer[readAt + i];
        if buffer[readAt + i] == pattern[seen] { n := seen + 1; }
      }
    }

    /** Scan the window, loading more of the stream as the scan reaches its end. */
    method Search(pattern: seq<Byte>, limit: nat, ghost stream: seq<Byte>, ghost given: seq<Byte>)
      returns (failed: Option<Outcome>, end: nat)
      requires Scanning(stream, given, 0) && pattern != [] && limit > 0
      modifies this, buffer, source
      ensures (fresh(buffer) || buffer == old(buffer)) && Scanning(stream, given, end)
      ensures failed == None ==> end <= |stream| && Until(stream, pattern, limit) == Found(stream[..end])
      ensures failed.Some? && failed.value != Exhausted ==>
        failed.value == Until(stream, pattern, limit) && !failed.value.Found?
      ensures failed == Some(Exhausted) <==>
        old(Starved(limit)) && old(readSize) <= |stream| && Missed(stream, pattern, old(readSize))
    {
      var seen, i := 0, 0;
      while i < limit
        invariant 0 <= i <= limit && (fresh(buffer) || buffer == old(buffer))
        invariant Scanning(stream, given, i) && i <= |stream|
        invariant seen == Matched(stream, pattern, i) && Missed(stream, pattern, i)
        invariant Starved(limit) == old(Starved(limit))
        invariant old(Starved(limit)) ==> readSize == old(readSize) && i <= readSize
      {
        failed, seen := Advance(pattern, seen, i, limit, stream, given);
        if failed.Some? {
          if i > 0 { UntilNothing(stream, pattern, limit); }
          return failed, i;
        }
        MissedOne(stream, pattern, i);
        i := i + 1;
        if seen == |pattern| {
          UntilFound(stream, pattern, limit, i - 1);
          return None, i;
        }
      }
      UntilNothing(stream, pattern, limit);
      return Some(FellOff), i;
    }

    method ReadUntil(pattern: seq<Byte>, most: nat) returns (r: Outcome)
      requires Valid() && pattern != []
      modifies this, buffer, source
      ensures Valid() && (fresh(buffer) || buffer == old(buffer))
      ensures r.Exhausted? || r == Until(old(Rest()), pattern, if most == 0 then blockSize else most)
      ensures r.Exhausted? <==>
        old(Starved(if most == 0 then blockSize else most)) && Missed(old(Rest()), pattern, old(readSize))
      ensures r.Found? ==> old(Rest()) == r.bytes + Rest() && delivered == old(delivered) + r.bytes
      ensures !r.Found? ==> Rest() == old(Rest()) && delivered == old(delivered)
    {
      var failed, end := Search(pattern, if most == 0 then blockSize else most, Rest(), delivered);
      assert OpenScanning(0);
      if failed.Some? { return failed.value; }
      var bytes := Deliver(end);
      return Found(bytes);
    }
  }
}
