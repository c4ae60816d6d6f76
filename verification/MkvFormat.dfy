/** The Matroska files that the muxer writes (crates/waymux-mux-mkv/src/lib.rs), as byte strings,
    and a streaming demuxer for them. An unknown-size Cluster ends only at the next Cluster ID or
    at the end of the file; SimpleBlocks follow section 10.2 of RFC 9559. */
module MkvFormat {
  import opened Bytes
  import opened Ebml

  const ID_EBML: nat := 0x1A45_DFA3
  const ID_EBML_VERSION: nat := 0x4286
  const ID_EBML_READ_VERSION: nat := 0x42F7
  const ID_EBML_MAX_ID_LENGTH: nat := 0x42F2
  const ID_EBML_MAX_SIZE_LENGTH: nat := 0x42F3
  const ID_DOC_TYPE: nat := 0x4282
  const ID_DOC_TYPE_VERSION: nat := 0x4287
  const ID_DOC_TYPE_READ_VERSION: nat := 0x4285
  const ID_SEGMENT: nat := 0x1853_8067
  const ID_INFO: nat := 0x1549_A966
  const ID_TIMECODE_SCALE: nat := 0x002A_D7B1
  const ID_MUXING_APP: nat := 0x4D80
  const ID_WRITING_APP: nat := 0x5741
  const ID_DURATION: nat := 0x4489
  const ID_TRACKS: nat := 0x1654_AE6B
  const ID_TRACK_ENTRY: nat := 0xAE
  const ID_TRACK_NUMBER: nat := 0xD7
  const ID_TRACK_UID: nat := 0x73C5
  const ID_TRACK_TYPE: nat := 0x83
  const ID_FLAG_LACING: nat := 0x9C
  const ID_CODEC_ID: nat := 0x86
  const ID_CODEC_PRIVATE: nat := 0x63A2
  const ID_VIDEO: nat := 0xE0
  const ID_PIXEL_WIDTH: nat := 0xB0
  const ID_PIXEL_HEIGHT: nat := 0xBA
  const ID_CLUSTER: nat := 0x1F43_B675
  const ID_TIMECODE: nat := 0xE7
  const ID_SIMPLE_BLOCK: nat := 0xA3

  const TRACK_NUMBER: nat := 1
  const TRACK_TYPE_VIDEO: nat := 1
  const TIMECODE_SCALE_NS: nat := 1_000_000
  const CLUSTER_DURATION_MS: int := 1000
  const MATROSKA: seq<byte> := [0x6D, 0x61, 0x74, 0x72, 0x6F, 0x73, 0x6B, 0x61]
  const APP: seq<byte> := [0x77, 0x61, 0x79, 0x6D, 0x75, 0x78, 0x2D, 0x6D, 0x75, 0x78, 0x2D, 0x6D, 0x6B, 0x76]

  type i64 = x: int | -0x8000_0000_0000_0000 <= x < 0x8000_0000_0000_0000

  datatype Track = Track(width: nat, height: nat, codecPrivate: seq<byte>, codecId: seq<byte>)
  datatype Frame = Frame(payload: seq<byte>, pts: i64, key: bool)

  /** What a slice can be long: a Rust `&[u8]` has fewer than 2^63 bytes. */
  const SLICE_LIMIT: nat := 0x8000_0000_0000_0000

  /** What the Rust types allow: 32-bit dimensions, and strings that fit in memory. */
  predicate WritableTrack(t: Track)
  {
    t.width < U32 && t.height < U32 && |t.codecPrivate| + |t.codecId| + 200 < SLICE_LIMIT
  }

  /** And strings that keep every header element below the EBML size limit. */
  predicate ValidTrack(t: Track) { WritableTrack(t) && |t.codecPrivate| + |t.codecId| + 200 < SIZE_LIMIT }

  // ----- the bytes of a file

  /** A child of a master element. */
  datatype Field = Field(id: nat, payload: seq<byte>)

  function UintField(id: nat, v: nat): (f: Field)
  {
    Field(id, BigEndian(v, UintLen(v)))
  }

  /** The body of a master element: its children in order. */
  function Body(fields: seq<Field>): (s: seq<byte>)
  {
    if fields == [] then []
    else Body(fields[..|fields| - 1]) + Element(fields[|fields| - 1].id, fields[|fields| - 1].payload)
  }

  const EBML_FIELDS: seq<Field> :=
    [ UintField(ID_EBML_VERSION, 1), UintField(ID_EBML_READ_VERSION, 1),
      UintField(ID_EBML_MAX_ID_LENGTH, 4), UintField(ID_EBML_MAX_SIZE_LENGTH, 8),
      Field(ID_DOC_TYPE, MATROSKA),
      UintField(ID_DOC_TYPE_VERSION, 4), UintField(ID_DOC_TYPE_READ_VERSION, 2) ]

  const SEGMENT_START: seq<byte> := IdField(ID_SEGMENT) + SizeField(UNKNOWN_SIZE)

  const APP_FIELDS: seq<Field> :=
    [UintField(ID_TIMECODE_SCALE, TIMECODE_SCALE_NS), Field(ID_MUXING_APP, APP), Field(ID_WRITING_APP, APP)]

  function InfoFields(duration: seq<byte>): (fs: seq<Field>) { APP_FIELDS + [Field(ID_DURATION, duration)] }

  function VideoFields(t: Track): (fs: seq<Field>)
  {
    [UintField(ID_PIXEL_WIDTH, t.width), UintField(ID_PIXEL_HEIGHT, t.height)]
  }

  function TrackFields(t: Track): (fs: seq<Field>)
  {
    [ UintField(ID_TRACK_NUMBER, TRACK_NUMBER), UintField(ID_TRACK_UID, 0xDEAD_BEEF),
      UintField(ID_TRACK_TYPE, TRACK_TYPE_VIDEO), UintField(ID_FLAG_LACING, 0),
      Field(ID_CODEC_ID, t.codecId), Field(ID_CODEC_PRIVATE, t.codecPrivate),
      Field(ID_VIDEO, Body(VideoFields(t))) ]
  }

  function TracksFields(t: Track): (fs: seq<Field>) { [Field(ID_TRACK_ENTRY, Body(TrackFields(t)))] }

  function Preamble(t: Track, duration: seq<byte>): (s: seq<byte>)
  {
    Element(ID_EBML, Body(EBML_FIELDS)) + SEGMENT_START
    + Element(ID_INFO, Body(InfoFields(duration))) + Element(ID_TRACKS, Body(TracksFields(t)))
  }

  function Max0(x: int): (r: nat) { if x < 0 then 0 else x }

  function ClusterStart(timecode: int): (s: seq<byte>)
  {
    IdField(ID_CLUSTER) + SizeField(UNKNOWN_SIZE) + UintElement(ID_TIMECODE, Max0(timecode))
  }

  /** `delta as i16`, then `to_be_bytes`. */
  function BlockBody(delta: int, key: bool, payload: seq<byte>): (s: seq<byte>)
  {
    Vint(TRACK_NUMBER) + BigEndian(delta % 0x1_0000, 2) + [if key then 0x80 else 0x00] + payload
  }

  function SimpleBlock(delta: int, key: bool, payload: seq<byte>): (s: seq<byte>)
  {
    Element(ID_SIMPLE_BLOCK, BlockBody(delta, key, payload))
  }

  /** Whether a Cluster is open, and the PTS it was opened at. */
  datatype Opener = Opener(open: bool, base: i64)

  const CLOSED := Opener(false, 0)

  /** 64-bit subtraction as the release build does it. */
  function WrappingSub(a: i64, b: i64): (d: i64)
  {
    var d := a - b;
    if d >= 0x8000_0000_0000_0000 then d - 0x1_0000_0000_0000_0000
    else if d < -0x8000_0000_0000_0000 then d + 0x1_0000_0000_0000_0000
    else d
  }

  predicate Opens(st: Opener, f: Frame)
  {
    !st.open || WrappingSub(f.pts, st.base) > CLUSTER_DURATION_MS || (f.key && WrappingSub(f.pts, st.base) > 50)
  }

  function Next(st: Opener, f: Frame): (st': Opener)
  {
    if Opens(st, f) then Opener(true, f.pts) else st
  }

  function FrameBytes(st: Opener, f: Frame): (s: seq<byte>)
  {
    (if Opens(st, f) then ClusterStart(f.pts) else [])
    + SimpleBlock(WrappingSub(f.pts, Next(st, f).base), f.key, f.payload)
  }

  function Stream(st: Opener, fs: seq<Frame>): (s: seq<byte>)
    decreases |fs|
  {
    if fs == [] then [] else FrameBytes(st, fs[0]) + Stream(Next(st, fs[0]), fs[1..])
  }

  function Run(st: Opener, fs: seq<Frame>): (st': Opener)
    decreases |fs|
  {
    if fs == [] then st else Run(Next(st, fs[0]), fs[1..])
  }

  function File(t: Track, duration: seq<byte>, fs: seq<Frame>): (s: seq<byte>)
  {
    Preamble(t, duration) + Stream(CLOSED, fs)
  }

  lemma {:induction false} StreamSnoc(st: Opener, fs: seq<Frame>, f: Frame)
    ensures Stream(st, fs + [f]) == Stream(st, fs) + FrameBytes(Run(st, fs), f)
    ensures Run(st, fs + [f]) == Next(Run(st, fs), f)
    decreases |fs|
  {
    if fs == [] {
      assert [f][1..] == [];
    } else {
      assert (fs + [f])[1..] == fs[1..] + [f];
      StreamSnoc(Next(st, fs[0]), fs[1..], f);
    }
  }

  // ----- the demuxer: element IDs and values are those of the Matroska specification, written out

  /** One element with a known size: its ID, its payload, and what follows. */
  function ReadElement(s: seq<byte>): (r: Option<(nat, seq<byte>, seq<byte>)>)
    ensures r.Some? ==> |r.value.2| < |s| && |r.value.1| < |s|
  {
    var id := ReadId(s);
    if id.None? then None else
    var size := ReadSize(id.value.1);
    if size.None? || size.value.0.Unknown? || |size.value.1| < size.value.0.n then None else
    var (n, rest) := (size.value.0.n, size.value.1);
    Some((id.value.0, rest[..n], rest[n..]))
  }

  /** An element whose size is unknown: its ID and what follows the element's header. */
  function ReadOpenElement(s: seq<byte>): (r: Option<(nat, seq<byte>)>)
    ensures r.Some? ==> |r.value.1| < |s|
  {
    var id := ReadId(s);
    if id.None? then None else
    var size := ReadSize(id.value.1);
    if size.None? || size.value.0.Known? then None else Some((id.value.0, size.value.1))
  }

  /** The payload of the first known-size element with this ID in a master element's body. */
  function Find(body: seq<byte>, id: nat): (r: Option<seq<byte>>)
    decreases |body|
  {
    var e := ReadElement(body);
    if e.None? then None else if e.value.0 == id then Some(e.value.1) else Find(e.value.2, id)
  }

  function AsI16(u: nat): (d: int) { if u < 0x8000 then u else u - 0x1_0000 }

  datatype Block = Block(delta: int, key: bool, payload: seq<byte>)

  /** The Block of track 1 in the body of a SimpleBlock: visible, not discardable and without lacing. */
  function ReadBlock(body: seq<byte>): (r: Option<Block>)
  {
    var track := ReadSize(body);
    if track.None? || track.value.0 != Known(1) || |track.value.1| < 3 then None else
    var rest := track.value.1;
    if rest[2] != 0x80 && rest[2] != 0 then None
    else Some(Block(AsI16(FromBigEndian(rest[..2])), rest[2] == 0x80, rest[3..]))
  }

  /** A frame at a time; the unit depends on who shows it. */
  datatype Shown = Shown(payload: seq<byte>, pts: int, key: bool)

  function Prepend(f: Shown, r: Option<seq<Shown>>): (r': Option<seq<Shown>>)
  {
    if r.None? then None else Some([f] + r.value)
  }

  /** The blocks of a run of Clusters, each at its Cluster's timecode plus its own delta, in ticks. */
  function DemuxBlocks(s: seq<byte>, timecode: Option<nat>): (r: Option<seq<Shown>>)
    decreases |s|
  {
    if |s| == 0 then Some([]) else
    var open := ReadOpenElement(s);
    if open.Some? then (if open.value.0 == 0x1F43_B675 then DemuxBlocks(open.value.1, None) else None) else
    var e := ReadElement(s);
    if e.None? then None else
    var (id, payload, rest) := e.value;
    if id == 0xE7 then DemuxBlocks(rest, Some(FromBigEndian(payload)))
    else if id != 0xA3 then DemuxBlocks(rest, timecode)
    else
      var b := ReadBlock(payload);
      if b.None? || timecode.None? then None
      else Prepend(Shown(b.value.payload, timecode.value + b.value.delta, b.value.key), DemuxBlocks(rest, timecode))
  }

  function FindUint(body: seq<byte>, id: nat): (r: Option<nat>)
  {
    var p := Find(body, id);
    if p.None? then None else Some(FromBigEndian(p.value))
  }

  datatype Header = Header(version: nat, readVersion: nat, maxIdLength: nat, maxSizeLength: nat,
                           docType: seq<byte>, docTypeVersion: nat, docTypeReadVersion: nat)

  function ReadHeader(body: seq<byte>): (r: Option<Header>)
  {
    var (a, b) := (FindUint(body, 0x4286), FindUint(body, 0x42F7));
    var (c, d) := (FindUint(body, 0x42F2), FindUint(body, 0x42F3));
    var (e, f, g) := (Find(body, 0x4282), FindUint(body, 0x4287), FindUint(body, 0x4285));
    if a.None? || b.None? || c.None? || d.None? || e.None? || f.None? || g.None? then None
    else Some(Header(a.value, b.value, c.value, d.value, e.value, f.value, g.value))
  }

  /** `scale` is the length of a tick in nanoseconds. */
  datatype Info = Info(scale: nat, muxingApp: seq<byte>, writingApp: seq<byte>, duration: seq<byte>)

  function ReadInfo(body: seq<byte>): (r: Option<Info>)
  {
    var (scale, muxing, writing, duration) :=
      (FindUint(body, 0x2A_D7B1), Find(body, 0x4D80), Find(body, 0x5741), Find(body, 0x4489));
    if scale.None? || muxing.None? || writing.None? || duration.None? then None
    else Some(Info(scale.value, muxing.value, writing.value, duration.value))
  }

  datatype Entry = Entry(number: nat, uid: nat, kind: nat, lacing: nat, track: Track)

  function ReadEntry(tracks: seq<byte>): (r: Option<Entry>)
  {
    var entry := Find(tracks, 0xAE);
    if entry.None? then None else ReadFields(entry.value)
  }

  function ReadFields(entry: seq<byte>): (r: Option<Entry>)
  {
    var (a, b, c, d) := (FindUint(entry, 0xD7), FindUint(entry, 0x73C5), FindUint(entry, 0x83), FindUint(entry, 0x9C));
    var (id, priv, video) := (Find(entry, 0x86), Find(entry, 0x63A2), Find(entry, 0xE0));
    if a.None? || b.None? || c.None? || d.None? || id.None? || priv.None? || video.None? then None else
    var (w, h) := (FindUint(video.value, 0xB0), FindUint(video.value, 0xBA));
    if w.None? || h.None? then None
    else Some(Entry(a.value, b.value, c.value, d.value, Track(w.value, h.value, priv.value, id.value)))
  }

  /** The frames of a movie are at nanoseconds. */
  datatype Movie = Movie(header: Header, info: Info, entry: Entry, frames: seq<Shown>)

  function Timed(frames: seq<Shown>, scale: nat): (r: seq<Shown>)
    ensures |r| == |frames|
    ensures forall i :: 0 <= i < |r| ==> r[i] == frames[i].(pts := frames[i].pts * scale)
  {
    seq(|frames|, i requires 0 <= i < |frames| => frames[i].(pts := frames[i].pts * scale))
  }

  function Demux(s: seq<byte>): (r: Option<Movie>)
  {
    var ebml := ReadElement(s);
    if ebml.None? || ebml.value.0 != 0x1A45_DFA3 then None else
    var segment := ReadOpenElement(ebml.value.2);
    if segment.None? || segment.value.0 != 0x1853_8067 then None else
    var info := ReadElement(segment.value.1);
    if info.None? || info.value.0 != 0x1549_A966 then None else
    var tracks := ReadElement(info.value.2);
    if tracks.None? || tracks.value.0 != 0x1654_AE6B then None else
    var (h, i, e) := (ReadHeader(ebml.value.1), ReadInfo(info.value.1), ReadEntry(tracks.value.1));
    if h.None? || i.None? || e.None? then None else
    var frames := DemuxBlocks(tracks.value.2, None);
    if frames.None? then None else Some(Movie(h.value, i.value, e.value, Timed(frames.value, i.value.scale)))
  }

  // ----- reading back what was written

  lemma {:induction false} ReadBackElement(id: nat, payload: seq<byte>, tail: seq<byte>)
    requires ValidId(id) && |payload| < SIZE_LIMIT
    ensures ReadElement(Element(id, payload) + tail) == Some((id, payload, tail))
    ensures ReadOpenElement(Element(id, payload) + tail) == None
  {
    Assoc(IdField(id) + SizeField(|payload|), payload, tail);
    Assoc(IdField(id), SizeField(|payload|), payload + tail);
    IdRoundTripExactly(id, SizeField(|payload|) + (payload + tail));
    SizeRoundTrip(|payload|, payload + tail);
  }

  lemma {:induction false} ReadBackOpenElement(id: nat, tail: seq<byte>)
    requires ValidId(id)
    ensures ReadOpenElement(IdField(id) + SizeField(UNKNOWN_SIZE) + tail) == Some((id, tail))
  {
    Assoc(IdField(id), SizeField(UNKNOWN_SIZE), tail);
    IdRoundTripExactly(id, SizeField(UNKNOWN_SIZE) + tail);
    UnknownSizeRead(tail);
  }

  ghost predicate Readable(fields: seq<Field>)
  {
    forall i :: 0 <= i < |fields| ==> ValidId(fields[i].id) && |fields[i].payload| < SIZE_LIMIT
  }

  lemma {:induction false} BodySnoc(fields: seq<Field>, f: Field)
    ensures Body(fields + [f]) == Body(fields) + Element(f.id, f.payload)
  {
    assert (fields + [f])[..|fields|] == fields;
  }

  lemma {:induction false} BodyCons(fields: seq<Field>)
    requires fields != []
    ensures Body(fields) == Element(fields[0].id, fields[0].payload) + Body(fields[1..])
  {
    var n := |fields| - 1;
    var (first, last) := (Element(fields[0].id, fields[0].payload), Element(fields[n].id, fields[n].payload));
    if n == 0 {
      assert Body(fields[..0]) == [] && Body(fields[1..]) == [];
      assert [] + first == first == first + [];
    } else {
      BodyCons(fields[..n]);
      assert fields[..n][1..] == fields[1..][..n - 1];
      Assoc(first, Body(fields[1..][..n - 1]), last);
    }
  }

  lemma {:induction false} FindFirst(id: nat, f: Field, tail: seq<byte>)
    requires ValidId(f.id) && |f.payload| < SIZE_LIMIT
    ensures Find(Element(f.id, f.payload) + tail, id) == if f.id == id then Some(f.payload) else Find(tail, id)
  {
    ReadBackElement(f.id, f.payload, tail);
  }

  /** The k-th child is the first with its ID. */
  ghost predicate FirstAt(fields: seq<Field>, k: nat)
  {
    Readable(fields) && k < |fields| && forall i :: 0 <= i < k ==> fields[i].id != fields[k].id
  }

  lemma {:induction false} FirstAtTail(fields: seq<Field>, k: nat)
    requires FirstAt(fields, k) && k > 0
    ensures FirstAt(fields[1..], k - 1) && fields[1..][k - 1] == fields[k] && fields[0].id != fields[k].id
  {
  }

  /** Every child is the first with its ID. */
  ghost predicate Unique(fields: seq<Field>)
  {
    Readable(fields) && forall i, k :: 0 <= i < k < |fields| ==> fields[i].id != fields[k].id
  }

  /** Looking up the k-th child finds its payload, past any children with other IDs. */
  lemma {:induction false} FindField(fields: seq<Field>, k: nat)
    requires FirstAt(fields, k)
    ensures Find(Body(fields), fields[k].id) == Some(fields[k].payload)
    decreases k
  {
    if k == 0 {
    } else {
      FirstAtTail(fields, k);
      FindField(fields[1..], k - 1);
    }
    BodyCons(fields);
    FindFirst(fields[k].id, fields[0], Body(fields[1..]));
  }

  function PayloadSum(fields: seq<Field>): (n: nat)
  {
    if fields == [] then 0 else PayloadSum(fields[..|fields| - 1]) + |fields[|fields| - 1].payload|
  }

  lemma {:induction false} BodyLen(fields: seq<Field>)
    ensures |Body(fields)| <= PayloadSum(fields) + 12 * |fields|
  {
    if fields == [] {
    } else {
      BodyLen(fields[..|fields| - 1]);
    }
  }

  lemma {:induction false} UintRead(id: nat, v: nat)
    requires v < U64
    ensures UintField(id, v).id == id && |UintField(id, v).payload| <= 8 && FromBigEndian(UintField(id, v).payload) == v
  {
    UintRoundTrip(v);
  }

  lemma {:induction false} ReadBackBlock(delta: int, key: bool, payload: seq<byte>)
    ensures ReadBlock(BlockBody(delta, key, payload)) == Some(Block(AsI16(delta % 0x1_0000), key, payload))
  {
    var (d, flags) := (delta % 0x1_0000, if key then 0x80 else 0x00);
    Assoc(Vint(TRACK_NUMBER), BigEndian(d, 2), [flags]);
    Assoc(Vint(TRACK_NUMBER), BigEndian(d, 2) + [flags], payload);
    SizeRoundTrip(1, BigEndian(d, 2) + [flags] + payload);
    assert d < Pow256(2) by { Powers(); }
    BigEndianRoundTrip(d, 2);
    BlockParts(BigEndian(d, 2), flags, payload);
  }

  lemma {:induction false} BlockParts(time: seq<byte>, flags: byte, payload: seq<byte>)
    requires |time| == 2
    ensures var rest := time + [flags] + payload; rest[..2] == time && rest[2] == flags && rest[3..] == payload
  {
  }
}
