/**
 The wire format: every message travels as a 4-byte big-endian length followed by its payload.
 `Parse` is the reference reading of a byte stream, independent of buffers and chunking.
 */
module Framing {
  import opened RingBuffers

  const PREFIX_BYTES := 4
  const MAX_PAYLOAD_BYTES := 0x10_0000

  type Bytes = seq<byte>

  function BigEndian(n: nat): Bytes
    requires n < 0x1_0000_0000
  {
    var high := n / 0x100;          // n >> 8
    var higher := high / 0x100;     // n >> 16
    [higher / 0x100, higher % 0x100, high % 0x100, n % 0x100]
  }

  function FromBigEndian(b: Bytes): (n: nat)
    requires |b| == PREFIX_BYTES
    ensures n < 0x1_0000_0000
  {
    (((b[0] as int) * 0x100 + b[1] as int) * 0x100 + b[2] as int) * 0x100 + b[3] as int
  }

  lemma LengthRoundTrip(n: nat)
    requires n < 0x1_0000_0000
    ensures FromBigEndian(BigEndian(n)) == n
  {
  }

  /** The first of the four bytes weighs most. */
  lemma HighByteFirst(n: nat)
    requires n < 0x1_0000_0000
    ensures var b := BigEndian(n);
            |b| == PREFIX_BYTES
            && n == b[0] as int * 0x100_0000 + b[1] as int * 0x1_0000 + b[2] as int * 0x100 + b[3] as int
  {
  }

  predicate Sendable(p: Bytes) {
    |p| <= MAX_PAYLOAD_BYTES
  }

  predicate AllSendable(ps: seq<Bytes>) {
    forall i :: 0 <= i < |ps| ==> Sendable(ps[i])
  }

  function Frame(p: Bytes): Bytes
    requires Sendable(p)
  {
    BigEndian(|p|) + p
  }

  function Encode(ps: seq<Bytes>): Bytes
    requires AllSendable(ps)
  {
    if ps == [] then [] else Frame(ps[0]) + Encode(ps[1..])
  }

  /** The length announced by the first four bytes. */
  function Announced(b: Bytes): nat
    requires |b| >= PREFIX_BYTES
  {
    FromBigEndian(b[..PREFIX_BYTES])
  }

  /** The announced length is beyond the protocol limit. */
  predicate Oversize(b: Bytes) {
    |b| >= PREFIX_BYTES && Announced(b) > MAX_PAYLOAD_BYTES
  }

  /** A whole acceptable frame stands at the front. */
  predicate Complete(b: Bytes) {
    |b| >= PREFIX_BYTES && Announced(b) <= MAX_PAYLOAD_BYTES && |b| >= PREFIX_BYTES + Announced(b)
  }

  datatype Parsed = Parsed(frames: seq<Bytes>, rest: Bytes)

  /** Takes whole frames off the front until none is left. */
  function Parse(b: Bytes): (r: Parsed)
    ensures AllSendable(r.frames) && !Complete(r.rest)
    decreases |b|
  {
    if !Complete(b) then Parsed([], b)
    else
      var end := PREFIX_BYTES + Announced(b);
      var tail := Parse(b[end..]);
      Parsed([b[PREFIX_BYTES..end]] + tail.frames, tail.rest)
  }

  lemma AnnouncedFrame(b: Bytes)
    requires Complete(b)
    ensures Frame(b[PREFIX_BYTES..PREFIX_BYTES + Announced(b)]) == b[..PREFIX_BYTES + Announced(b)]
  {
    var n := Announced(b);
    assert n / 0x100 == ((b[0] as int) * 0x100 + b[1] as int) * 0x100 + b[2] as int;
    assert BigEndian(n) == b[..PREFIX_BYTES];
  }

  /** Nothing is lost or invented: the frames, written out again, and the rest are the input. */
  lemma {:induction false} ParseKeepsBytes(b: Bytes)
    ensures b == Encode(Parse(b).frames) + Parse(b).rest
    decreases |b|
  {
    if Complete(b) {
      var end := PREFIX_BYTES + Announced(b);
      var tail := Parse(b[end..]);
      AnnouncedFrame(b);
      ParseKeepsBytes(b[end..]);
      assert Parse(b).frames[1..] == tail.frames;
      assert b == b[..end] + b[end..];
    }
  }

  /** One whole frame at the front is the first frame that is read. */
  lemma ParseHead(p: Bytes, more: Bytes)
    requires Sendable(p)
    ensures Parse(Frame(p) + more) == Parsed([p] + Parse(more).frames, Parse(more).rest)
  {
    var b := Frame(p) + more;
    LengthRoundTrip(|p|);
    assert b[..PREFIX_BYTES] == BigEndian(|p|);
    assert b[PREFIX_BYTES..PREFIX_BYTES + |p|] == p;
    assert b[PREFIX_BYTES + |p|..] == more;
  }

  /** The front frame of `a` is read the same way whatever `b` follows. */
  lemma SplitHead(a: Bytes, b: Bytes) returns (p: Bytes, more: Bytes)
    requires Complete(a)
    ensures |more| < |a|
    ensures Parse(a) == Parsed([p] + Parse(more).frames, Parse(more).rest)
    ensures Parse(a + b) == Parsed([p] + Parse(more + b).frames, Parse(more + b).rest)
  {
    var end := PREFIX_BYTES + Announced(a);
    p, more := a[PREFIX_BYTES..end], a[end..];
    AnnouncedFrame(a);
    assert a + b == Frame(p) + (more + b);
    ParseHead(p, more + b);
  }

  /** Reading what was written gives the messages back, whatever incomplete tail follows. */
  lemma {:induction false} ParseEncoded(ps: seq<Bytes>, rest: Bytes)
    requires AllSendable(ps) && !Complete(rest)
    ensures Parse(Encode(ps) + rest) == Parsed(ps, rest)
  {
    if ps == [] {
      assert Encode(ps) + rest == rest;
    } else {
      var more := Encode(ps[1..]) + rest;
      assert Encode(ps) + rest == Frame(ps[0]) + more;
      ParseHead(ps[0], more);
      ParseEncoded(ps[1..], rest);
    }
  }

  /** Reading on after `b` arrived behind what `first` left over. */
  function Joined(first: Parsed, b: Bytes): Parsed {
    var more := Parse(first.rest + b);
    Parsed(first.frames + more.frames, more.rest)
  }

  lemma JoinedHead(p: Bytes, m: Parsed, b: Bytes)
    ensures Joined(Parsed([p] + m.frames, m.rest), b) == Parsed([p] + Joined(m, b).frames, Joined(m, b).rest)
  {
    var qs := Parse(m.rest + b).frames;
    assert ([p] + m.frames) + qs == [p] + (m.frames + qs);
  }

  /** Chunking independence of the reference reading: parse what came, keep the rest, go on. */
  lemma {:induction false} ParseAppend(a: Bytes, b: Bytes)
    ensures Parse(a + b) == Joined(Parse(a), b)
    decreases |a|
  {
    if Complete(a) {
      var p, more := SplitHead(a, b);
      ParseAppend(more, b);
      JoinedHead(p, Parse(more), b);
    }
  }

  lemma {:induction false} EncodeAppend(ps: seq<Bytes>, qs: seq<Bytes>)
    requires AllSendable(ps) && AllSendable(qs)
    ensures Encode(ps + qs) == Encode(ps) + Encode(qs)
  {
    if ps == [] {
      assert ps + qs == qs;
    } else {
      assert (ps + qs)[1..] == ps[1..] + qs;
      EncodeAppend(ps[1..], qs);
    }
  }

  lemma EncodeOneMore(ps: seq<Bytes>, p: Bytes)
    requires AllSendable(ps) && Sendable(p)
    ensures AllSendable(ps + [p]) && Encode(ps + [p]) == Encode(ps) + Frame(p)
  {
    EncodeAppend(ps, [p]);
    assert Encode([p]) == Frame(p) + [];
  }

  /** What a receiver with `capacity` bytes of buffer can read to the end without getting stuck. */
  predicate Digestible(b: Bytes, capacity: nat) {
    var r := Parse(b);
    FramesFit(r.frames, capacity) && !Oversize(r.rest) && |r.rest| < capacity
  }

  predicate FramesFit(ps: seq<Bytes>, capacity: nat) {
    forall i :: 0 <= i < |ps| ==> PREFIX_BYTES + |ps[i]| <= capacity
  }

  /** A front part of the stream either stops inside the first frame or contains it. */
  lemma FrontOfFrame(b: Bytes, p: Bytes, more: Bytes)
    requires Sendable(p) && b <= Frame(p) + more
    ensures |b| < PREFIX_BYTES + |p| ==> Parse(b) == Parsed([], b) && !Oversize(b)
    ensures |b| >= PREFIX_BYTES + |p| ==> b[PREFIX_BYTES + |p|..] <= more && b == Frame(p) + b[PREFIX_BYTES + |p|..]
  {
    LengthRoundTrip(|p|);
    if |b| >= PREFIX_BYTES {
      assert b[..PREFIX_BYTES] == (Frame(p) + more)[..PREFIX_BYTES] == BigEndian(|p|);
    }
  }

  /** The front of an encoded message list parses to the front of that list. */
  lemma {:induction false} PrefixOfEncoded(b: Bytes, ps: seq<Bytes>, capacity: nat)
    requires AllSendable(ps) && b <= Encode(ps)
    ensures Parse(b).frames <= ps && !Oversize(Parse(b).rest)
    ensures FramesFit(ps, capacity) && capacity > 0 ==> Digestible(b, capacity)
    ensures b == Encode(ps) ==> Parse(b) == Parsed(ps, [])
  {
    hide Parse, Complete, Oversize, Announced;
    if ps == [] {
      NothingRead(capacity);
    } else {
      var p, more := ps[0], Encode(ps[1..]);
      FrontOfFrame(b, p, more);
      if |b| >= PREFIX_BYTES + |p| {
        var tail := b[PREFIX_BYTES + |p|..];
        PrefixOfEncoded(tail, ps[1..], capacity);
        OneFrameBefore(p, tail, ps[1..], capacity);
        assert ps == [p] + ps[1..];
      }
    }
  }

  lemma NothingRead(capacity: nat)
    ensures Parse([]) == Parsed([], []) && !Oversize([]) && (capacity > 0 ==> Digestible([], capacity))
  {
  }

  lemma OneFrameBefore(p: Bytes, tail: Bytes, ps: seq<Bytes>, capacity: nat)
    requires Sendable(p) && AllSendable(ps) && Parse(tail).frames <= ps && !Oversize(Parse(tail).rest)
    requires FramesFit(ps, capacity) && capacity > 0 ==> Digestible(tail, capacity)
    requires tail == Encode(ps) ==> Parse(tail) == Parsed(ps, [])
    ensures var b, all := Frame(p) + tail, [p] + ps;
            && Parse(b).frames <= all && !Oversize(Parse(b).rest)
            && (FramesFit(all, capacity) && capacity > 0 ==> Digestible(b, capacity))
            && (b == Frame(p) + Encode(ps) ==> Parse(b) == Parsed(all, []))
  {
    hide Parse, Frame, Complete, Oversize, Announced, Encode, AllSendable;
    ParseHead(p, tail);
    PrependFrame(p, Parse(tail).frames, ps, capacity);
    assert forall i :: 0 <= i < |ps| ==> ([p] + ps)[i + 1] == ps[i];
    assert ([p] + ps)[0] == p;
    assert Frame(p) + tail == Frame(p) + Encode(ps) ==> tail == Encode(ps) by {
      assert (Frame(p) + tail)[|Frame(p)|..] == tail && (Frame(p) + Encode(ps))[|Frame(p)|..] == Encode(ps);
    }
  }


  lemma PrependFrame(p: Bytes, qs: seq<Bytes>, ps: seq<Bytes>, capacity: nat)
    requires qs <= ps
    ensures [p] + qs <= [p] + ps
    ensures PREFIX_BYTES + |p| <= capacity && FramesFit(qs, capacity) ==> FramesFit([p] + qs, capacity)
  {
  }
}
