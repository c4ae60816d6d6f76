/** Length-prefixed frames: `encode_frame` and `decode_frame` (crates/waymux-protocol/src/codec.rs) and the
    socket reader (crates/waymux-daemon/src/server.rs, `read_frame` and the loop of `reader_task`). */
module Framing {
  import opened Bytes

  const MAX_FRAME_SIZE: nat := 0x140_0000 // 20 MiB

  /** MessagePack is opaque: an encoder that may fail after writing some bytes, and a decoder. */
  datatype Encoded = Whole(bytes: seq<byte>) | Broken(partial: seq<byte>)
  datatype Codec<!M> = Codec(enc: M -> Encoded, dec: seq<byte> -> Option<M>)

  ghost predicate Inverse<M(!new)>(c: Codec<M>)
  {
    forall m :: c.enc(m).Whole? ==> c.dec(c.enc(m).bytes) == Some(m)
  }

  /** The messages the encoder accepts. */
  predicate Encodes<M>(c: Codec<M>, m: M)
  {
    c.enc(m).Whole? && |c.enc(m).bytes| <= 0x140_0000
  }

  function Frame(payload: seq<byte>): (s: seq<byte>)
  {
    BigEndian(|payload|, 4) + payload
  }

  // ----- encoding

  class Vec {
    var data: seq<byte>

    constructor (data: seq<byte>)
      ensures this.data == data
    {
      this.data := data;
    }
  }

  datatype EncodeResult = Ok | Msgpack | TooLarge(actual: nat)

  /** Appends one frame, or leaves the buffer exactly as it was. */
  method EncodeFrame<M>(c: Codec<M>, value: M, out: Vec) returns (r: EncodeResult)
    modifies out
    ensures r.Ok? <==> Encodes(c, value)
    ensures out.data == if r.Ok? then old(out.data) + Frame(c.enc(value).bytes) else old(out.data)
    ensures r.Msgpack? <==> c.enc(value).Broken?
    ensures r.TooLarge? ==> r.actual == |c.enc(value).bytes|
  {
    var frameStart := |out.data|;
    out.data := out.data + [0, 0, 0, 0];
    var payloadStart := |out.data|;
    var e := c.enc(value);
    if e.Broken? {
      out.data := out.data + e.partial;
      out.data := out.data[..frameStart];
      return Msgpack;
    }
    out.data := out.data + e.bytes;
    var len := |out.data| - payloadStart;
    if len > MAX_FRAME_SIZE {
      out.data := out.data[..frameStart];
      return TooLarge(len);
    }
    out.data := out.data[..frameStart] + BigEndian(len, 4) + out.data[frameStart + 4..];
    assert out.data == old(out.data) + Frame(e.bytes);
    return Ok;
  }

  // ----- decoding one frame

  datatype Decoded<+M> = Message(value: M) | BadPayload | OverLimit(len: nat) | Truncated(need: nat, have: nat)

  function DecodeFrame<M>(c: Codec<M>, bytes: seq<byte>): (r: Decoded<M>)
  {
    if |bytes| < 4 then Truncated(4, |bytes|) else
    var len := FromBigEndian(bytes[..4]);
    if len > MAX_FRAME_SIZE then OverLimit(len)
    else if |bytes| != 4 + len then Truncated(4 + len, |bytes|)
    else
      var m := c.dec(bytes[4..]);
      if m.Some? then Message(m.value) else BadPayload
  }

  lemma {:induction false} FourBytes(n: nat)
    requires n <= MAX_FRAME_SIZE
    ensures FromBigEndian(BigEndian(n, 4)) == n
  {
    assert Pow256(4) == 256 * Pow256(3) && Pow256(3) == 256 * Pow256(2) && Pow256(2) == 65536;
    BigEndianRoundTrip(n, 4);
  }

  function Shift(high: nat, low: nat): (n: nat) { high * 256 + low }

  /** The number in the first four bytes, the highest first. */
  function Length(bytes: seq<byte>): (n: nat)
    requires |bytes| >= 4
  {
    Shift(Shift(Shift(bytes[0], bytes[1]), bytes[2]), bytes[3])
  }

  lemma {:induction false} LengthRead(bytes: seq<byte>)
    requires |bytes| >= 4
    ensures FromBigEndian(bytes[..4]) == Length(bytes)
  {
    var h := bytes[..4];
    assert h[..3][..2] == h[..2] && h[..2][..1] == h[..1] && h[..1][..0] == [];
    assert FromBigEndian(h[..1]) == h[0];
    assert FromBigEndian(h[..2]) == Shift(h[0], h[1]);
    assert FromBigEndian(h[..3]) == Shift(Shift(h[0], h[1]), h[2]);
  }

  /** A frame is the length of its payload in four bytes, the highest first, and the payload. */
  lemma {:induction false} FrameLength(payload: seq<byte>)
    requires |payload| <= 0x140_0000
    ensures |Frame(payload)| == 4 + |payload| && Length(Frame(payload)) == |payload| && Frame(payload)[4..] == payload
  {
    FourBytes(|payload|);
    LengthRead(Frame(payload));
    assert Frame(payload)[..4] == BigEndian(|payload|, 4);
  }

  /** What the decoder makes of any bytes: too few for a length; a length over 20 MiB; a payload shorter or longer than
      its length; and else the payload decoded. */
  lemma {:induction false} DecodeExactly<M>(c: Codec<M>, bytes: seq<byte>)
    ensures var r := DecodeFrame(c, bytes);
            if |bytes| < 4 then r == Truncated(4, |bytes|)
            else if Length(bytes) > 0x140_0000 then r == OverLimit(Length(bytes))
            else if |bytes| != 4 + Length(bytes) then r == Truncated(4 + Length(bytes), |bytes|)
            else if c.dec(bytes[4..]).Some? then r == Message(c.dec(bytes[4..]).value)
            else r == BadPayload
  {
    if |bytes| >= 4 { LengthRead(bytes); }
  }

  /** The decoder looks at a payload exactly when it is given one whole frame within the limit, and then
      at that frame's own payload. */
  lemma {:induction false} DecodesExactlyFrames<M>(c: Codec<M>, bytes: seq<byte>)
    ensures (DecodeFrame(c, bytes).Message? || DecodeFrame(c, bytes).BadPayload?)
       <==> |bytes| >= 4 && bytes == Frame(bytes[4..]) && |bytes| <= MAX_FRAME_SIZE + 4
  {
    if |bytes| >= 4 {
      var (head, payload) := (bytes[..4], bytes[4..]);
      assert bytes == head + payload;
      if |payload| <= MAX_FRAME_SIZE {
        FourBytes(|payload|);
        if FromBigEndian(head) == |payload| { FromBigEndianInjective(head, BigEndian(|payload|, 4)); }
        assert Frame(payload)[..4] == BigEndian(|payload|, 4);
      }
    }
  }

  lemma {:induction false} DecodeEncoded<M(!new)>(c: Codec<M>, m: M)
    requires Inverse(c) && Encodes(c, m)
    ensures DecodeFrame(c, Frame(c.enc(m).bytes)) == Message(m)
  {
    var p := c.enc(m).bytes;
    FourBytes(|p|);
    assert Frame(p)[..4] == BigEndian(|p|, 4) && Frame(p)[4..] == p;
  }

  // ----- reading a stream of frames

  datatype FrameRead = Got(frame: seq<byte>) | Closed | Failed

  /** `read_frame` on the bytes still to come, and what it leaves: an end inside the length is a clean
      close, an end inside the payload or an excessive length is an error. */
  function NextFrame(s: seq<byte>): (r: (FrameRead, seq<byte>))
    ensures r.0.Got? ==> |r.1| < |s|
  {
    if |s| < 4 then (Closed, []) else
    var len := FromBigEndian(s[..4]);
    if len > MAX_FRAME_SIZE then (Failed, s[4..])
    else if |s| < 4 + len then (Failed, [])
    else (Got(s[..4 + len]), s[4 + len..])
  }

  /** The messages the reader loop takes off a stream, and whether it ended without an error. */
  function ReadAll<M>(c: Codec<M>, s: seq<byte>): (r: (seq<M>, bool))
    decreases |s|
  {
    var (f, rest) := NextFrame(s);
    if f.Closed? then ([], true)
    else if f.Failed? then ([], false)
    else
      var d := DecodeFrame(c, f.frame);
      if !d.Message? then ([], true)
      else
        var later := ReadAll(c, rest);
        ([d.value] + later.0, later.1)
  }

  class Socket {
    const data: seq<byte>
    var pos: nat

    ghost predicate Valid()
      reads this
    {
      pos <= |data|
    }

    ghost function Rest(): (s: seq<byte>)
      requires Valid()
      reads this
    {
      data[pos..]
    }

    constructor (data: seq<byte>)
      ensures Valid() && this.data == data && Rest() == data
    {
      this.data, pos := data, 0;
    }

    /** `read_exact`: n bytes, or none and the stream used up. */
    method ReadExact(n: nat) returns (b: Option<seq<byte>>)
      requires Valid()
      modifies this`pos
      ensures Valid()
      ensures b == if n <= |old(Rest())| then Some(old(Rest())[..n]) else None
      ensures Rest() == if n <= |old(Rest())| then old(Rest())[n..] else []
    {
      if n <= |data| - pos {
        assert data[pos..][..n] == data[pos..pos + n];
        b := Some(data[pos..pos + n]);
        pos := pos + n;
      } else {
        b, pos := None, |data|;
      }
    }

    method ReadFrame() returns (r: FrameRead)
      requires Valid()
      modifies this`pos
      ensures Valid() && (r, Rest()) == NextFrame(old(Rest()))
    {
      ghost var s := Rest();
      var head := ReadExact(4);
      if head.None? { return Closed; }
      var len := FromBigEndian(head.value);
      if len > MAX_FRAME_SIZE { return Failed; }
      var payload := ReadExact(len);
      if payload.None? { return Failed; }
      assert s[4..][len..] == s[4 + len..] && s[..4] + s[4..][..len] == s[..4 + len];
      return Got(head.value + payload.value);
    }

    /** The reader loop: frames until the peer closes, an error, or a request that does not decode. */
    method ReadMessages<M>(c: Codec<M>) returns (ms: seq<M>, clean: bool)
      requires Valid()
      modifies this`pos
      ensures Valid() && (ms, clean) == ReadAll(c, old(Rest()))
    {
      ms := [];
      ghost var all := ReadAll(c, Rest());
      while true
        invariant Valid()
        invariant Splits(ms, ReadAll(c, Rest()), all)
        decreases |Rest()|
      {
        ghost var s := Rest();
        ReadAllStep(c, s);
        var f := ReadFrame();
        assert ms + [] == ms;
        if !f.Got? { return ms, f.Closed?; }
        var d := DecodeFrame(c, f.frame);
        if !d.Message? { return ms, true; }
        SplitsNext(ms, d.value, ReadAll(c, Rest()), all);
        ms := ms + [d.value];
      }
    }
  }

  /** What was read so far and what is still to be read make up everything. */
  ghost predicate Splits<M>(read: seq<M>, later: (seq<M>, bool), all: (seq<M>, bool))
  {
    read + later.0 == all.0 && later.1 == all.1
  }

  lemma {:induction false} SplitsNext<M>(read: seq<M>, m: M, later: (seq<M>, bool), all: (seq<M>, bool))
    requires Splits(read, ([m] + later.0, later.1), all)
    ensures Splits(read + [m], later, all)
  {
    assert read + ([m] + later.0) == read + [m] + later.0;
  }

  lemma {:induction false} ReadAllStep<M>(c: Codec<M>, s: seq<byte>)
    ensures var (f, rest) := NextFrame(s);
            if f.Closed? then ReadAll(c, s) == ([], true)
            else if f.Failed? then ReadAll(c, s) == ([], false)
            else if DecodeFrame(c, f.frame).Message? then
              ReadAll(c, s) == ([DecodeFrame(c, f.frame).value] + ReadAll(c, rest).0, ReadAll(c, rest).1)
            else ReadAll(c, s) == ([], true)
  {
  }

  // ----- whole streams

  predicate Sendable<M>(c: Codec<M>, ms: seq<M>)
  {
    forall i :: 0 <= i < |ms| ==> Encodes(c, ms[i])
  }

  function Wire<M>(c: Codec<M>, ms: seq<M>): (s: seq<byte>)
    requires Sendable(c, ms)
  {
    if ms == [] then [] else Frame(c.enc(ms[0]).bytes) + Wire(c, ms[1..])
  }

  lemma {:induction false} NextOnWire(payload: seq<byte>, tail: seq<byte>)
    requires |payload| <= MAX_FRAME_SIZE
    ensures NextFrame(Frame(payload) + tail) == (Got(Frame(payload)), tail)
  {
    var s := Frame(payload) + tail;
    assert s[..4] == BigEndian(|payload|, 4);
    FourBytes(|payload|);
    assert s[..4 + |payload|] == Frame(payload) && s[4 + |payload|..] == tail;
  }

  /** A whole frame at the front of the stream is the next message. */
  lemma {:induction false} ReadOne<M(!new)>(c: Codec<M>, m: M, tail: seq<byte>)
    requires Inverse(c) && Encodes(c, m)
    ensures ReadAll(c, Frame(c.enc(m).bytes) + tail) == ([m] + ReadAll(c, tail).0, ReadAll(c, tail).1)
  {
    NextOnWire(c.enc(m).bytes, tail);
    DecodeEncoded(c, m);
    ReadAllStep(c, Frame(c.enc(m).bytes) + tail);
  }

  /** A frame cut in its length is a clean close; cut in its payload, an error. */
  lemma {:induction false} ReadCut<M>(c: Codec<M>, payload: seq<byte>, k: nat)
    requires |payload| <= MAX_FRAME_SIZE && k < |Frame(payload)|
    ensures ReadAll(c, Frame(payload)[..k]) == ([], k < 4)
  {
    var s := Frame(payload)[..k];
    FourBytes(|payload|);
    if k >= 4 { assert s[..4] == BigEndian(|payload|, 4); }
    ReadAllStep(c, s);
  }

  /** The number of messages whose frames are whole in the first k bytes. */
  function Arrived<M>(c: Codec<M>, ms: seq<M>, k: nat): (n: nat)
    requires Sendable(c, ms)
    ensures n <= |ms|
  {
    if ms == [] || k < |Frame(c.enc(ms[0]).bytes)| then 0
    else 1 + Arrived(c, ms[1..], k - |Frame(c.enc(ms[0]).bytes)|)
  }

  lemma {:induction false} WireTake<M>(c: Codec<M>, ms: seq<M>, n: nat)
    requires Sendable(c, ms) && n < |ms|
    ensures ms[..n + 1] == [ms[0]] + ms[1..][..n]
    ensures |Wire(c, ms[..n + 1])| == |Frame(c.enc(ms[0]).bytes)| + |Wire(c, ms[1..][..n])|
  {
    assert ms[..n + 1][1..] == ms[1..][..n];
  }

  lemma {:induction false} CutJoin(a: seq<byte>, b: seq<byte>, k: nat)
    requires k <= |a + b|
    ensures (a + b)[..k] == if k < |a| then a[..k] else a + b[..k - |a|]
  {
  }

  lemma {:induction false} CutMessages<M(!new)>(c: Codec<M>, ms: seq<M>, k: nat)
    requires Inverse(c) && Sendable(c, ms) && k <= |Wire(c, ms)|
    ensures ReadAll(c, Wire(c, ms)[..k]).0 == ms[..Arrived(c, ms, k)]
    decreases |ms|
  {
    if ms == [] {
      ReadAllStep(c, Wire(c, ms)[..k]);
    } else {
      var (p, rest) := (c.enc(ms[0]).bytes, Wire(c, ms[1..]));
      CutJoin(Frame(p), rest, k);
      if k < |Frame(p)| {
        ReadCut(c, p, k);
      } else {
        var k' := k - |Frame(p)|;
        ReadOne(c, ms[0], rest[..k']);
        CutMessages(c, ms[1..], k');
        WireTake(c, ms, Arrived(c, ms[1..], k'));
      }
    }
  }

  lemma {:induction false} CutClean<M(!new)>(c: Codec<M>, ms: seq<M>, k: nat)
    requires Inverse(c) && Sendable(c, ms) && k <= |Wire(c, ms)|
    ensures ReadAll(c, Wire(c, ms)[..k]).1 <==> k - |Wire(c, ms[..Arrived(c, ms, k)])| < 4
    decreases |ms|
  {
    if ms == [] {
      ReadAllStep(c, Wire(c, ms)[..k]);
    } else {
      var (p, rest) := (c.enc(ms[0]).bytes, Wire(c, ms[1..]));
      CutJoin(Frame(p), rest, k);
      if k < |Frame(p)| {
        ReadCut(c, p, k);
      } else {
        var k' := k - |Frame(p)|;
        ReadOne(c, ms[0], rest[..k']);
        CutClean(c, ms[1..], k');
        WireTake(c, ms, Arrived(c, ms[1..], k'));
      }
    }
  }

  /** Wherever the stream is cut, the reader gets exactly the messages whose frames arrived whole, and it
      ends cleanly unless the cut is inside a payload. */
  lemma {:induction false} CutStream<M(!new)>(c: Codec<M>, ms: seq<M>, k: nat)
    requires Inverse(c) && Sendable(c, ms) && k <= |Wire(c, ms)|
    ensures ReadAll(c, Wire(c, ms)[..k]).0 == ms[..Arrived(c, ms, k)]
    ensures ReadAll(c, Wire(c, ms)[..k]).1 <==> k - |Wire(c, ms[..Arrived(c, ms, k)])| < 4
  {
    CutMessages(c, ms, k);
    CutClean(c, ms, k);
  }

  /** Frames written one after another are read back as exactly the messages sent; none is refused. */
  lemma {:induction false} WireRoundTrip<M(!new)>(c: Codec<M>, ms: seq<M>)
    requires Inverse(c) && Sendable(c, ms)
    ensures ReadAll(c, Wire(c, ms)) == (ms, true)
    decreases |ms|
  {
    if ms == [] {
      ReadAllStep(c, []);
    } else {
      ReadOne(c, ms[0], Wire(c, ms[1..]));
      WireRoundTrip(c, ms[1..]);
      assert ms == [ms[0]] + ms[1..];
    }
  }

  // ----- where reading stops

  lemma {:induction false} ReadPast<M(!new)>(c: Codec<M>, ms: seq<M>, tail: seq<byte>)
    requires Inverse(c) && Sendable(c, ms)
    ensures ReadAll(c, Wire(c, ms) + tail) == (ms + ReadAll(c, tail).0, ReadAll(c, tail).1)
    decreases |ms|
  {
    if ms == [] {
      assert Wire(c, ms) + tail == tail && ms + ReadAll(c, tail).0 == ReadAll(c, tail).0;
    } else {
      var (f, rest) := (Frame(c.enc(ms[0]).bytes), Wire(c, ms[1..]));
      Assoc(f, rest, tail);
      ReadOne(c, ms[0], rest + tail);
      ReadPast(c, ms[1..], tail);
      Assoc([ms[0]], ms[1..], ReadAll(c, tail).0);
      assert ms == [ms[0]] + ms[1..];
    }
  }

  /** The loop ends at the first frame whose payload does not decode, without an error, whatever follows. */
  lemma {:induction false} StopsAtUndecodable<M(!new)>(c: Codec<M>, ms: seq<M>, payload: seq<byte>, tail: seq<byte>)
    requires Inverse(c) && Sendable(c, ms) && |payload| <= 0x140_0000 && c.dec(payload).None?
    ensures ReadAll(c, Wire(c, ms) + (Frame(payload) + tail)) == (ms, true)
  {
    ReadPast(c, ms, Frame(payload) + tail);
    NextOnWire(payload, tail);
    FrameLength(payload);
    DecodeExactly(c, Frame(payload));
    ReadAllStep(c, Frame(payload) + tail);
    assert ms + [] == ms;
  }

  /** It ends at the first length over 20 MiB, with an error. */
  lemma {:induction false} StopsAtOversized<M(!new)>(c: Codec<M>, ms: seq<M>, tail: seq<byte>)
    requires Inverse(c) && Sendable(c, ms) && |tail| >= 4 && Length(tail) > 0x140_0000
    ensures ReadAll(c, Wire(c, ms) + tail) == (ms, false)
  {
    ReadPast(c, ms, tail);
    LengthRead(tail);
    ReadAllStep(c, tail);
    assert ms + [] == ms;
  }
}
