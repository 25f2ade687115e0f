/**
 Length-prefixed gRPC messages on a byte stream: a flag octet, four octets of length, the payload.
 The parser keeps what it has been fed and not yet taken; a declared length beyond the limit drops
 the buffer for good.
 */
module Frames {
  import opened Octets
  import opened Varint

  const HEADER_SIZE: nat := 5
  const MAX_PAYLOAD_SIZE: nat := 0xffff_ffff

  datatype Frame = Frame(flag: Octet, payload: Octets)
  {
    predicate IsCompressed() {
      flag != 0
    }
  }

  function BigEndian(n: nat): (d: Octets)
    requires n < TWO_TO_32
    ensures |d| == 4
  {
    [n / 0x100_0000, n / 0x1_0000 % 256, n / 0x100 % 256, n % 256]
  }

  function FromBigEndian(d: Octets): (n: nat)
    requires |d| == 4
    ensures n < TWO_TO_32
  {
    var n0: nat, n1: nat, n2: nat, n3: nat := d[0], d[1], d[2], d[3];
    n0 * 0x100_0000 + n1 * 0x1_0000 + n2 * 0x100 + n3
  }

  lemma BigEndianRoundTrip(n: nat)
    requires n < TWO_TO_32
    ensures FromBigEndian(BigEndian(n)) == n
  {
    assert n / 0x1_0000 == 256 * (n / 0x100_0000) + n / 0x1_0000 % 256;
    assert n / 0x100 == 256 * (n / 0x1_0000) + n / 0x100 % 256;
  }

  lemma FromBigEndianRoundTrip(d: Octets)
    requires |d| == 4
    ensures BigEndian(FromBigEndian(d)) == d
  {
    var n := FromBigEndian(d);
    var n0: nat, n1: nat, n2: nat := d[0], d[1], d[2];
    assert n / 0x100 == n0 * 0x1_0000 + n1 * 0x100 + n2;
    assert n / 0x1_0000 == n0 * 0x100 + n1;
  }

  predicate Allowed(f: Frame, limit: nat) {
    |f.payload| <= limit && |f.payload| < TWO_TO_32
  }

  /** The octets of a frame, as writeMessage lays them out: the length is cast to 32 bits. */
  function Framed(f: Frame): (d: Octets)
    ensures |d| == HEADER_SIZE + |f.payload|
  {
    [f.flag] + BigEndian(|f.payload| % TWO_TO_32) + f.payload
  }

  function Joined(frames: seq<Frame>): Octets
  {
    if frames == [] then [] else Framed(frames[0]) + Joined(frames[1..])
  }

  datatype Next =
    | NeedMoreData
    | Oversize(declared: nat)
    | Parsed(frame: Frame, size: nat)

  /** parseNextFrame, as a function of the buffer. */
  function ParseNext(d: Octets, limit: nat): (r: Next)
    ensures r.Parsed? ==> HEADER_SIZE <= r.size <= |d| && Allowed(r.frame, limit)
  {
    if |d| < HEADER_SIZE then NeedMoreData
    else
      var length := FromBigEndian(d[1..5]);
      if length > limit then Oversize(length)
      else if |d| < HEADER_SIZE + length then NeedMoreData
      else Parsed(Frame(d[0], d[5..5 + length]), 5 + length)
  }

  /** What a drained buffer has yielded: the frames, the declared length that stopped it, if any, and
      what is left in the buffer. */
  datatype Drained = Drained(frames: seq<Frame>, oversize: Option<nat>, rest: Octets)

  function Prefixed(frames: seq<Frame>, d: Drained): Drained {
    d.(frames := frames + d.frames)
  }

  function Drain(d: Octets, limit: nat): (r: Drained)
    ensures forall k :: 0 <= k < |r.frames| ==> Allowed(r.frames[k], limit)
    decreases |d|
  {
    match ParseNext(d, limit)
    case NeedMoreData => Drained([], None, d)
    case Oversize(n) => Drained([], Some(n), [])
    case Parsed(f, size) => Prefixed([f], Drain(d[size..], limit))
  }

  /** More octets behind a buffer do not change a decision that has been taken. */
  lemma ParseNextAppend(a: Octets, b: Octets, limit: nat)
    requires !ParseNext(a, limit).NeedMoreData?
    ensures ParseNext(a + b, limit) == ParseNext(a, limit)
  {
    assert (a + b)[1..5] == a[1..5];
    var r := ParseNext(a, limit);
    if r.Parsed? {
      assert (a + b)[5..r.size] == a[5..r.size];
    }
  }

  lemma PrefixedTwice(a: seq<Frame>, b: seq<Frame>, d: Drained)
    ensures Prefixed(a, Prefixed(b, d)) == Prefixed(a + b, d)
  {
    assert a + (b + d.frames) == a + b + d.frames;
  }

  /** Draining in two pieces, with what the first left over in front of the second. */
  lemma {:induction false} DrainAppend(a: Octets, b: Octets, limit: nat)
    ensures var first := Drain(a, limit);
            Drain(a + b, limit)
            == if first.oversize.Some? then first else Prefixed(first.frames, Drain(first.rest + b, limit))
    decreases |a|
  {
    match ParseNext(a, limit)
    case NeedMoreData =>
      assert [] + Drain(a + b, limit).frames == Drain(a + b, limit).frames;
    case Oversize(n) =>
      ParseNextAppend(a, b, limit);
    case Parsed(f, size) =>
      ParseNextAppend(a, b, limit);
      AppendDrop(a, b, size);
      DrainAppend(a[size..], b, limit);
      var first := Drain(a[size..], limit);
      PrefixedTwice([f], first.frames, Drain(first.rest + b, limit));
  }

  function Flatten(chunks: seq<Octets>): Octets {
    if chunks == [] then [] else chunks[0] + Flatten(chunks[1..])
  }

  /** Chunks fed one by one, each drained before the next, up to the first oversize frame. */
  function DrainChunks(rest: Octets, chunks: seq<Octets>, limit: nat): Drained
    decreases |chunks|
  {
    if chunks == [] then Drained([], None, rest)
    else
      var first := Drain(rest + chunks[0], limit);
      if first.oversize.Some? then first
      else Prefixed(first.frames, DrainChunks(first.rest, chunks[1..], limit))
  }

  predicate Settled(d: Octets, limit: nat) {
    ParseNext(d, limit).NeedMoreData?
  }

  lemma {:induction false} DrainSettles(d: Octets, limit: nat)
    ensures Drain(d, limit).oversize.None? ==> Settled(Drain(d, limit).rest, limit)
    ensures |Drain(d, limit).rest| < HEADER_SIZE + limit
    decreases |d|
  {
    match ParseNext(d, limit)
    case Parsed(_, size) => DrainSettles(d[size..], limit);
    case _ =>
  }

  /** However the stream is cut, the frames, the error and the left-over octets are those of the
      stream fed at once. */
  lemma {:induction false} ChunkingIndependent(rest: Octets, chunks: seq<Octets>, limit: nat)
    requires Settled(rest, limit)
    ensures DrainChunks(rest, chunks, limit) == Drain(rest + Flatten(chunks), limit)
    decreases |chunks|
  {
    if chunks == [] {
      assert rest + [] == rest;
    } else {
      var first := Drain(rest + chunks[0], limit);
      DrainAppend(rest + chunks[0], Flatten(chunks[1..]), limit);
      assert rest + Flatten(chunks) == rest + chunks[0] + Flatten(chunks[1..]);
      if first.oversize.None? {
        DrainSettles(rest + chunks[0], limit);
        ChunkingIndependent(first.rest, chunks[1..], limit);
      }
    }
  }

  lemma ParseFramed(f: Frame, tail: Octets, limit: nat)
    requires Allowed(f, limit)
    ensures ParseNext(Framed(f) + tail, limit) == Parsed(f, |Framed(f)|)
  {
    hide BigEndian, FromBigEndian;
    var d := Framed(f) + tail;
    assert d[1..5] == BigEndian(|f.payload|);
    BigEndianRoundTrip(|f.payload|);
    assert d[5..5 + |f.payload|] == f.payload;
  }

  /** Framed messages within the limit come back, and what follows them is drained as if alone. */
  lemma {:induction false} FramesRecovered(frames: seq<Frame>, tail: Octets, limit: nat)
    requires forall k :: 0 <= k < |frames| ==> Allowed(frames[k], limit)
    ensures Drain(Joined(frames) + tail, limit) == Prefixed(frames, Drain(tail, limit))
    decreases |frames|
  {
    hide Framed, ParseNext;
    if frames == [] {
      assert Joined(frames) + tail == tail;
      assert [] + Drain(tail, limit).frames == Drain(tail, limit).frames;
    } else {
      var f, rest := frames[0], Joined(frames[1..]) + tail;
      assert Joined(frames) + tail == Framed(f) + rest;
      FirstDrained(f, rest, limit);
      FramesRecovered(frames[1..], tail, limit);
      PrefixedTwice([f], frames[1..], Drain(tail, limit));
      assert [f] + frames[1..] == frames;
    }
  }

  lemma FirstDrained(f: Frame, rest: Octets, limit: nat)
    requires Allowed(f, limit)
    ensures Drain(Framed(f) + rest, limit) == Prefixed([f], Drain(rest, limit))
  {
    hide Framed, ParseNext;
    ParseFramed(f, rest, limit);
    assert (Framed(f) + rest)[|Framed(f)|..] == rest;
  }

  lemma ParsedIsFramed(d: Octets, limit: nat)
    ensures var r := ParseNext(d, limit); r.Parsed? ==> d == Framed(r.frame) + d[r.size..]
  {
    var r := ParseNext(d, limit);
    if r.Parsed? {
      FromBigEndianRoundTrip(d[1..5]);
      assert d[..5] == [d[0]] + d[1..5];
      assert d == d[..5] + d[5..r.size] + d[r.size..];
    }
  }

  /** No octet is lost or made up: the stream is the frames and the rest. */
  lemma {:induction false} NothingLost(d: Octets, limit: nat)
    requires Drain(d, limit).oversize.None?
    ensures d == Joined(Drain(d, limit).frames) + Drain(d, limit).rest
    decreases |d|
  {
    match ParseNext(d, limit)
    case NeedMoreData =>
    case Parsed(f, size) =>
      ParsedIsFramed(d, limit);
      NothingLost(d[size..], limit);
      var r := Drain(d[size..], limit);
      assert Drain(d, limit).frames[1..] == r.frames;
      assert Framed(f) + (Joined(r.frames) + r.rest) == Framed(f) + Joined(r.frames) + r.rest;
  }

  /** A stream ends cleanly exactly when it is a sequence of allowed frames. */
  lemma EndsCleanly(d: Octets, limit: nat)
    ensures (Drain(d, limit).oversize.None? && Drain(d, limit).rest == [])
            <==> exists frames: seq<Frame> ::
                   (forall k :: 0 <= k < |frames| ==> Allowed(frames[k], limit)) && d == Joined(frames)
  {
    var r := Drain(d, limit);
    if r.oversize.None? && r.rest == [] {
      NothingLost(d, limit);
      assert Joined(r.frames) + [] == Joined(r.frames);
    }
    if frames: seq<Frame> :| (forall k :: 0 <= k < |frames| ==> Allowed(frames[k], limit)) && d == Joined(frames) {
      FramesRecovered(frames, [], limit);
      assert d + [] == d;
    }
  }

  class DataParser {
    const maxReceiveSize: nat
    var container: Octets

    constructor (maxReceiveSize: nat)
      requires maxReceiveSize <= MAX_PAYLOAD_SIZE
      ensures this.maxReceiveSize == maxReceiveSize && container == []
    {
      this.maxReceiveSize := maxReceiveSize;
      container := [];
    }

    method Feed(data: Octets)
      modifies this
      ensures container == old(container) + data
    {
      container := container + data;
    }

    /** One frame is taken off the front, the buffer is left alone, or it is dropped. */
    method ParseNextFrame() returns (r: Next)
      modifies this
      ensures r == ParseNext(old(container), maxReceiveSize)
      ensures container == match r
                           case NeedMoreData => old(container)
                           case Oversize(_) => []
                           case Parsed(_, size) => old(container)[size..]
    {
      if |container| < HEADER_SIZE {
        return NeedMoreData;
      }
      var messageLength := FromBigEndian(container[1..5]);
      if messageLength > maxReceiveSize {
        container := [];
        return Oversize(messageLength);
      }
      var frameSize := HEADER_SIZE + messageLength;
      if |container| < frameSize {
        return NeedMoreData;
      }
      r := Parsed(Frame(container[0], container[HEADER_SIZE..frameSize]), frameSize);
      container := container[frameSize..];
    }

    /** The loop of the dataReceived handler: feed a chunk, take frames until there is none. */
    method Receive(data: Octets) returns (frames: seq<Frame>, oversize: Option<nat>)
      modifies this
      ensures Drain(old(container) + data, maxReceiveSize) == Drained(frames, oversize, container)
    {
      Feed(data);
      frames, oversize := [], None;
      while true
        invariant Drain(old(container) + data, maxReceiveSize)
                  == Prefixed(frames, Drain(container, maxReceiveSize))
        decreases |container|
      {
        var r := ParseNextFrame();
        if r.NeedMoreData? {
          return;
        } else if r.Oversize? {
          oversize := Some(r.declared);
          return;
        }
        PrefixedTwice(frames, [r.frame], Drain(container, maxReceiveSize));
        frames := frames + [r.frame];
      }
    }
  }
}
