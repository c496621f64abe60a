/**
 The fixed-capacity byte ring of a connection: separate read and write offsets, a byte count that
 tells empty from full, storage allocated on first use, and two-region access for recv and send.
 */
module RingBuffers {
  import opened Basics

  type byte = x: int | 0 <= x < 256

  /** An offset one lap beyond the end, brought back into the ring. */
  function Wrap(capacity: nat, i: nat): nat {
    if i < capacity then i else i - capacity
  }

  /** The `n` bytes that start at `off` and run around the end of the storage. */
  function Span(d: seq<byte>, off: nat, n: nat): (s: seq<byte>)
    requires off <= |d| && n <= |d|
    ensures |s| == n && forall i :: 0 <= i < n ==> s[i] == d[Wrap(|d|, off + i)]
  {
    seq(n, i requires 0 <= i < n => d[Wrap(|d|, off + i)])
  }

  lemma SpanSplit(d: seq<byte>, off: nat, a: nat, b: nat)
    requires off < |d| && a + b <= |d|
    ensures Span(d, off, a + b) == Span(d, off, a) + Span(d, Wrap(|d|, off + a), b)
  {
    var l, r := Span(d, off, a + b), Span(d, off, a) + Span(d, Wrap(|d|, off + a), b);
    forall i | 0 <= i < a + b ensures l[i] == r[i] {
      if i < a {
        assert r[i] == Span(d, off, a)[i];
      } else {
        var j := i - a;
        assert r[i] == Span(d, Wrap(|d|, off + a), b)[j];
        assert Wrap(|d|, Wrap(|d|, off + a) + j) == Wrap(|d|, off + i);
      }
    }
  }

  /** Offsets stay below two laps, so the modulus only ever takes one lap off. */
  lemma ModIsWrap(capacity: nat, i: nat)
    requires 0 < capacity && i < 2 * capacity
    ensures i % capacity == Wrap(capacity, i)
  {
  }

  /** Storing `k` bytes behind the stored ones, within the free part, does not disturb them. */
  lemma SpanUntouched(d: seq<byte>, d': seq<byte>, off: nat, n: nat, k: nat)
    requires |d| == |d'| && off < |d| && n + k <= |d|
    requires forall i :: 0 <= i < |d| && !InSpan(|d|, Wrap(|d|, off + n), k, i) ==> d'[i] == d[i]
    ensures Span(d', off, n) == Span(d, off, n)
  {
    forall i | 0 <= i < n ensures Span(d', off, n)[i] == Span(d, off, n)[i] {
      assert !InSpan(|d|, Wrap(|d|, off + n), k, Wrap(|d|, off + i));
    }
  }

  predicate InSpan(capacity: nat, off: nat, n: nat, i: nat) {
    off <= i < off + n || i + capacity < off + n
  }

  /** The two straight pieces of a span: up to the end of the storage, and from its start. */
  lemma SpanRegions(d: seq<byte>, off: nat, n: nat)
    requires off < |d| && n <= |d|
    ensures var first := Min(n, |d| - off);
            Span(d, off, n) == d[off..off + first] + d[..n - first]
  {
    var first := Min(n, |d| - off);
    var l, r := Span(d, off, n), d[off..off + first] + d[..n - first];
    forall i | 0 <= i < n ensures l[i] == r[i] {
      if i < first {
        assert r[i] == d[off..off + first][i];
      } else {
        assert r[i] == d[..n - first][i - first];
      }
    }
  }

  /** `after` is `before` with `piece` put over the part that starts at `off`. */
  predicate Put(before: seq<byte>, off: nat, piece: seq<byte>, after: seq<byte>) {
    && |after| == |before| && off + |piece| <= |before|
    && forall i :: 0 <= i < |before| ==>
         after[i] == if off <= i < off + |piece| then piece[i - off] else before[i]
  }

  method CopyInto(dst: array<byte>, off: nat, src: seq<byte>)
    requires off + |src| <= dst.Length
    modifies dst
    ensures Put(old(dst[..]), off, src, dst[..])
  {
    forall i | 0 <= i < |src| {
      dst[off + i] := src[i];
    }
  }

  /** Copying up to the end and the rest to the start stores exactly the span. */
  lemma TwoPieces(before: seq<byte>, mid: seq<byte>, after: seq<byte>, off: nat, src: seq<byte>)
    requires off < |before| && |src| <= |before|
    requires var first := Min(|src|, |before| - off);
             Put(before, off, src[..first], mid) && Put(mid, 0, src[first..], after)
    ensures |after| == |before| && Span(after, off, |src|) == src
    ensures forall i :: 0 <= i < |before| && !InSpan(|before|, off, |src|, i) ==> after[i] == before[i]
  {
    var first := Min(|src|, |before| - off);
    forall i | 0 <= i < |src| ensures Span(after, off, |src|)[i] == src[i] {
      if i < first {
        assert after[off + i] == mid[off + i] == src[..first][i];
      } else {
        assert after[i - first] == src[first..][i - first];
      }
    }
  }

  method CopyAround(dst: array<byte>, off: nat, src: seq<byte>)
    requires off < dst.Length && |src| <= dst.Length
    modifies dst
    ensures Span(dst[..], off, |src|) == src
    ensures forall i :: 0 <= i < dst.Length && !InSpan(dst.Length, off, |src|, i) ==> dst[..][i] == old(dst[..])[i]
  {
    ghost var before := dst[..];
    var first := Min(|src|, dst.Length - off);
    CopyInto(dst, off, src[..first]);
    ghost var mid := dst[..];
    if |src| > first {
      CopyInto(dst, 0, src[first..]);
    }
    TwoPieces(before, mid, dst[..], off, src);
  }

  class RingBuffer {
    const capacity: nat
    var writeOff: nat
    var readOff: nat
    var size: nat
    var data: array<byte>

    ghost predicate Valid()
      reads this
    {
      && size <= capacity
      && (data.Length == 0 || data.Length == capacity)
      && (size > 0 ==> data.Length == capacity)
      && (if capacity == 0 then readOff == 0 && writeOff == 0
          else readOff < capacity && writeOff == Wrap(capacity, readOff + size))
    }

    /** The stored bytes, oldest first. */
    ghost function Contents(): (s: seq<byte>)
      requires Valid()
      reads this, data
      ensures |s| == size
    {
      if size == 0 then [] else Span(data[..], readOff, size)
    }

    constructor (capacity: nat)
      ensures Valid() && this.capacity == capacity && Contents() == []
      ensures fresh(data) && data.Length == 0
    {
      this.capacity := capacity;
      writeOff, readOff, size := 0, 0, 0;
      data := new byte[0];
    }

    function Free(): nat
      requires Valid()
      reads this
    {
      capacity - size
    }

    /** How many of the stored bytes lie before the end of the storage; the others wrapped around. */
    function First(): nat
      requires Valid()
      reads this
    {
      Min(size, capacity - readOff)
    }

    method EnsureAllocated()
      requires Valid() && capacity > 0
      modifies this`data
      ensures Valid() && data.Length == capacity
      ensures data == old(data) || fresh(data)
      ensures Contents() == old(Contents())
    {
      if data.Length == 0 {
        data := new byte[capacity](_ => 0);
      }
    }

    /** Places `src` behind the stored bytes, in at most two pieces; nothing is accepted yet. */
    method Store(src: seq<byte>)
      requires Valid() && 0 < |src| <= Free()
      modifies this`data, data
      ensures Valid() && data.Length == capacity && (data == old(data) || fresh(data))
      ensures Span(data[..], writeOff, |src|) == src
      ensures Contents() == old(Contents())
    {
      EnsureAllocated();
      ghost var before := data[..];
      CopyAround(data, writeOff, src);
      SpanUntouched(before, data[..], readOff, size, |src|);
    }

    /** Accepts `n` bytes that were stored from the write offset on. */
    method CommitWrite(n: nat)
      requires Valid() && n <= Free() && capacity > 0 && data.Length == capacity
      modifies this`writeOff, this`size
      ensures Valid()
      ensures Contents() == old(Contents()) + Span(data[..], old(writeOff), n)
    {
      SpanSplit(data[..], readOff, size, n);
      ModIsWrap(capacity, writeOff + n);
      writeOff := (writeOff + n) % capacity;
      size := size + n;
    }

    /** Best-effort append: stores as many bytes as fit. */
    method WriteSome(src: seq<byte>) returns (n: nat)
      requires Valid()
      modifies this, data
      ensures Valid() && (data == old(data) || fresh(data))
      ensures n == Min(|src|, old(Free()))
      ensures Contents() == old(Contents()) + src[..n]
    {
      n := Min(|src|, Free());
      if n == 0 {
        return;
      }
      Store(src[..n]);
      CommitWrite(n);
    }

    /** All-or-nothing append. */
    method Write(src: seq<byte>) returns (ok: bool)
      requires Valid()
      modifies this, data
      ensures Valid() && (data == old(data) || fresh(data))
      ensures ok <==> |src| <= old(Free())
      ensures Contents() == if ok then old(Contents()) + src else old(Contents())
    {
      if |src| > Free() {
        return false;
      }
      var n := WriteSome(src);
      return true;
    }

    /** Drops the oldest `n` bytes; CommitRead of the original is the same operation. */
    method Consume(n: nat)
      requires Valid() && n <= size && capacity > 0
      modifies this`readOff, this`size
      ensures Valid() && readOff == Wrap(capacity, old(readOff) + n) && size == old(size) - n
      ensures Contents() == old(Contents())[n..]
      ensures n == old(First()) ==> First() == size
    {
      if size > 0 {
        SpanSplit(data[..], readOff, n, size - n);
      }
      ModIsWrap(capacity, readOff + n);
      readOff := (readOff + n) % capacity;
      size := size - n;
    }

    /** Where the next received bytes may be stored: offset and length, length 0 only when full. */
    method WritableRegion0() returns (off: nat, len: nat)
      requires Valid()
      modifies this`data
      ensures Valid() && (data == old(data) || fresh(data))
      ensures Contents() == old(Contents())
      ensures len == Min(Free(), capacity - writeOff)
      ensures len == 0 <==> size == capacity
      ensures len > 0 ==> off == writeOff && off + len <= data.Length
    {
      if size == capacity {
        return 0, 0;
      }
      EnsureAllocated();
      return writeOff, Min(Free(), capacity - writeOff);
    }

    /** The readable bytes up to the end of the storage. */
    method ReadableRegion0() returns (s: seq<byte>)
      requires Valid()
      ensures size > 0 ==> |s| == Min(size, capacity - readOff) > 0
      ensures size == 0 ==> s == []
      ensures s <= Contents()
    {
      if size == 0 {
        return [];
      }
      SpanRegions(data[..], readOff, size);
      s := data[readOff..readOff + Min(size, capacity - readOff)];
    }

    /** The readable bytes that wrapped around to the start of the storage. */
    method ReadableRegion1() returns (s: seq<byte>)
      requires Valid()
      ensures size > 0 ==> s == Contents()[Min(size, capacity - readOff)..]
      ensures size == 0 ==> s == []
    {
      if size == 0 {
        return [];
      }
      SpanRegions(data[..], readOff, size);
      s := data[..size - Min(size, capacity - readOff)];
    }
  }
}
