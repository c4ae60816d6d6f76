/** Main results about the muxer's files: when and what a demuxer gets back, what the Clusters look
    like, and what patching the Duration changes. */
module MkvRoundTrip {
  import opened Bytes
  import opened Ebml
  import opened MkvFormat
  import Duration
  import Float64

  ghost predicate Slices(fs: seq<Frame>) { forall i :: 0 <= i < |fs| ==> |fs[i].payload| < SLICE_LIMIT }

  function AsShown(f: Frame): (r: Shown) { Shown(f.payload, f.pts, f.key) }

  function AllShown(fs: seq<Frame>): (r: seq<Shown>)
    ensures |r| == |fs| && forall i :: 0 <= i < |fs| ==> r[i] == AsShown(fs[i])
  {
    seq(|fs|, i requires 0 <= i < |fs| => AsShown(fs[i]))
  }

  /** The size of the SimpleBlock stays below the EBML limit. */
  predicate Fits(f: Frame) { |f.payload| + 4 < SIZE_LIMIT }

  /** A frame that opens a Cluster must not be before 0 (the timecode is clamped there), and a frame in
      an open Cluster must not be more than 32768 ms before it (the delta is cut to 16 bits). */
  predicate InTime(st: Opener, f: Frame)
  {
    if Opens(st, f) then f.pts >= 0 else f.pts - st.base >= -32768
  }

  predicate Recoverable(st: Opener, fs: seq<Frame>)
    decreases |fs|
  {
    fs == [] || (Fits(fs[0]) && InTime(st, fs[0]) && Recoverable(Next(st, fs[0]), fs[1..]))
  }

  // ----- one frame

  function ReadBack(st: Opener, f: Frame): (r: Shown)
  {
    Shown(f.payload, Max0(Next(st, f).base) + AsI16(WrappingSub(f.pts, Next(st, f).base) % 0x1_0000), f.key)
  }

  lemma {:induction false} BlockSize(delta: int, key: bool, payload: seq<byte>)
    ensures |BlockBody(delta, key, payload)| == |payload| + 4
  {
    assert VintLen(TRACK_NUMBER) == 1 by { Powers(); }
  }

  lemma {:induction false} DemuxCluster(t: i64, tail: seq<byte>, timecode: Option<nat>)
    ensures DemuxBlocks(ClusterStart(t) + tail, timecode) == DemuxBlocks(tail, Some(Max0(t)))
  {
    var time := UintElement(ID_TIMECODE, Max0(t)) + tail;
    assert ClusterStart(t) + tail == IdField(ID_CLUSTER) + SizeField(UNKNOWN_SIZE) + time;
    ReadBackOpenElement(ID_CLUSTER, time);
    assert |time| > 0;
    UintRead(ID_TIMECODE, Max0(t));
    ReadBackElement(ID_TIMECODE, BigEndian(Max0(t), UintLen(Max0(t))), tail);
  }

  lemma {:induction false} DemuxBlock(delta: int, key: bool, payload: seq<byte>, tail: seq<byte>, timecode: nat)
    requires |payload| + 4 < SIZE_LIMIT
    ensures DemuxBlocks(SimpleBlock(delta, key, payload) + tail, Some(timecode))
         == Prepend(Shown(payload, timecode + AsI16(delta % 0x1_0000), key), DemuxBlocks(tail, Some(timecode)))
  {
    BlockSize(delta, key, payload);
    ReadBackBlock(delta, key, payload);
    ReadBackElement(ID_SIMPLE_BLOCK, BlockBody(delta, key, payload), tail);
  }

  /** A SimpleBlock too large for its size field is never read back with its own payload. */
  lemma {:induction false} DemuxOversized(delta: int, key: bool, payload: seq<byte>, tail: seq<byte>, timecode: nat)
    requires SIZE_LIMIT <= |payload| + 4 < U64
    ensures var r := DemuxBlocks(SimpleBlock(delta, key, payload) + tail, Some(timecode));
            r.None? || (|r.value| > 0 && |r.value[0].payload| < |payload|)
  {
    BlockSize(delta, key, payload);
    ReadOversized(BlockBody(delta, key, payload), tail);
    var e := ReadElement(SimpleBlock(delta, key, payload) + tail);
    if e.Some? { BlockShrinks(e.value.1); }
  }

  lemma {:induction false} ReadOversized(body: seq<byte>, tail: seq<byte>)
    requires SIZE_LIMIT <= |body| < U64
    ensures var s := Element(ID_SIMPLE_BLOCK, body) + tail;
            var (open, e) := (ReadOpenElement(s), ReadElement(s));
            (open.Some? ==> open.value.0 != ID_CLUSTER)
            && (e.Some? ==> e.value.0 == ID_SIMPLE_BLOCK && |e.value.1| < |body|)
  {
    Assoc(IdField(ID_SIMPLE_BLOCK) + SizeField(|body|), body, tail);
    Assoc(IdField(ID_SIMPLE_BLOCK), SizeField(|body|), body + tail);
    IdRoundTripExactly(ID_SIMPLE_BLOCK, SizeField(|body|) + (body + tail));
    KnownSizeBound(SizeField(|body|) + (body + tail));
  }

  lemma {:induction false} BlockShrinks(body: seq<byte>)
    ensures ReadBlock(body).Some? ==> |ReadBlock(body).value.payload| + 4 <= |body|
  {
  }

  /** The timecode in force at the frame's block is that of the Cluster it falls in. */
  lemma {:induction false} DemuxOpener(st: Opener, f: Frame, tail: seq<byte>, timecode: Option<nat>)
    requires st.open ==> timecode == Some(Max0(st.base))
    ensures DemuxBlocks(FrameBytes(st, f) + tail, timecode)
         == DemuxBlocks(SimpleBlock(WrappingSub(f.pts, Next(st, f).base), f.key, f.payload) + tail,
                        Some(Max0(Next(st, f).base)))
  {
    var block := SimpleBlock(WrappingSub(f.pts, Next(st, f).base), f.key, f.payload);
    Assoc(if Opens(st, f) then ClusterStart(f.pts) else [], block, tail);
    if Opens(st, f) { DemuxCluster(f.pts, block + tail, timecode); }
  }

  // ----- times

  /** The time read back is the time written, exactly when the frame is in time. */
  lemma {:induction false} TimeExactly(st: Opener, f: Frame)
    requires st.open ==> st.base >= 0
    ensures ReadBack(st, f).pts == f.pts <==> InTime(st, f)
    ensures InTime(st, f) ==> Next(st, f).base >= 0
  {
    if !Opens(st, f) {
      var w := WrappingSub(f.pts, st.base);
      assert w <= CLUSTER_DURATION_MS;
      var diff := f.pts - st.base;
      assert w == diff || w == diff + 0x1_0000_0000_0000_0000;
      CutTo16(w);
    }
  }

  lemma {:induction false} CutTo16(w: int)
    ensures -32768 <= AsI16(w % 0x1_0000) <= 32767
    ensures AsI16(w % 0x1_0000) == w <==> -32768 <= w <= 32767
  {
  }

  // ----- the whole stream

  /** For every list of frames and every payload, including payloads that contain element IDs: the
      demuxer returns exactly the frames written if and only if they are recoverable. */
  lemma {:induction false} StreamRoundTrip(st: Opener, fs: seq<Frame>, timecode: Option<nat>)
    requires Slices(fs)
    requires st.open ==> st.base >= 0 && timecode == Some(Max0(st.base))
    ensures DemuxBlocks(Stream(st, fs), timecode) == Some(AllShown(fs)) <==> Recoverable(st, fs)
    decreases |fs|
  {
    if fs == [] {
    } else {
      var f, next := fs[0], Next(st, fs[0]);
      assert AllShown(fs) == [AsShown(f)] + AllShown(fs[1..]);
      var tail := Stream(next, fs[1..]);
      FrameRoundTrip(st, f, tail, timecode, AllShown(fs[1..]));
      TimeExactly(st, f);
      if InTime(st, f) { StreamRoundTrip(next, fs[1..], Some(Max0(next.base))); }
    }
  }

  lemma {:induction false} FrameRoundTrip(st: Opener, f: Frame, tail: seq<byte>, timecode: Option<nat>,
      later: seq<Shown>)
    requires |f.payload| < SLICE_LIMIT
    requires st.open ==> st.base >= 0 && timecode == Some(Max0(st.base))
    ensures DemuxBlocks(FrameBytes(st, f) + tail, timecode) == Some([AsShown(f)] + later)
       <==> Fits(f) && InTime(st, f) && DemuxBlocks(tail, Some(Max0(Next(st, f).base))) == Some(later)
  {
    DemuxOpener(st, f, tail, timecode);
    BlockRoundTrip(WrappingSub(f.pts, Next(st, f).base), AsShown(f), tail, Max0(Next(st, f).base), later);
    TimeExactly(st, f);
  }

  lemma {:induction false} BlockRoundTrip(delta: int, f: Shown, tail: seq<byte>, timecode: nat, later: seq<Shown>)
    requires |f.payload| < SLICE_LIMIT
    ensures DemuxBlocks(SimpleBlock(delta, f.key, f.payload) + tail, Some(timecode)) == Some([f] + later)
       <==> |f.payload| + 4 < SIZE_LIMIT && timecode + AsI16(delta % 0x1_0000) == f.pts
            && DemuxBlocks(tail, Some(timecode)) == Some(later)
  {
    if |f.payload| + 4 < SIZE_LIMIT {
      DemuxBlock(delta, f.key, f.payload, tail, timecode);
      PrependEqual(Shown(f.payload, timecode + AsI16(delta % 0x1_0000), f.key), DemuxBlocks(tail, Some(timecode)), f,
          later);
    } else {
      DemuxOversized(delta, f.key, f.payload, tail, timecode);
    }
  }

  lemma {:induction false} PrependEqual(f: Shown, r: Option<seq<Shown>>, g: Shown, s: seq<Shown>)
    ensures Prepend(f, r) == Some([g] + s) <==> f == g && r == Some(s)
  {
    if r.Some? && [f] + r.value == [g] + s {
      assert f == ([f] + r.value)[0];
      assert r.value == ([f] + r.value)[1..];
    }
  }

  // ----- the header

  ghost predicate Small(fields: seq<Field>, max: nat)
  {
    forall i :: 0 <= i < |fields| ==> |fields[i].payload| <= max
  }

  lemma {:induction false} SmallBody(fields: seq<Field>, max: nat)
    requires Small(fields, max)
    ensures |Body(fields)| <= max * |fields| + 12 * |fields|
  {
    BodyLen(fields);
    SumBound(fields, max);
  }

  lemma {:induction false} SumBound(fields: seq<Field>, max: nat)
    requires Small(fields, max)
    ensures PayloadSum(fields) <= max * |fields|
  {
    if fields == [] {
    } else {
      SumBound(fields[..|fields| - 1], max);
    }
  }

  lemma {:induction false} ReadHeaderOf(fs: seq<Field>)
    requires |fs| == 7 && Unique(fs)
    requires fs[0].id == 0x4286 && fs[1].id == 0x42F7 && fs[2].id == 0x42F2 && fs[3].id == 0x42F3
    requires fs[4].id == 0x4282 && fs[5].id == 0x4287 && fs[6].id == 0x4285
    ensures ReadHeader(Body(fs))
         == Some(Header(FromBigEndian(fs[0].payload), FromBigEndian(fs[1].payload), FromBigEndian(fs[2].payload),
                        FromBigEndian(fs[3].payload), fs[4].payload, FromBigEndian(fs[5].payload),
                        FromBigEndian(fs[6].payload)))
  {
    AllFound(fs);
    HeaderFrom(Body(fs), fs[0].payload, fs[1].payload, fs[2].payload, fs[3].payload, fs[4].payload, fs[5].payload,
               fs[6].payload);
  }

  lemma {:induction false} HeaderFrom(body: seq<byte>, a: seq<byte>, b: seq<byte>, c: seq<byte>, d: seq<byte>,
                                      e: seq<byte>, f: seq<byte>, g: seq<byte>)
    requires Find(body, 0x4286) == Some(a) && Find(body, 0x42F7) == Some(b) && Find(body, 0x42F2) == Some(c)
    requires Find(body, 0x42F3) == Some(d) && Find(body, 0x4282) == Some(e) && Find(body, 0x4287) == Some(f)
    requires Find(body, 0x4285) == Some(g)
    ensures ReadHeader(body)
         == Some(Header(FromBigEndian(a), FromBigEndian(b), FromBigEndian(c), FromBigEndian(d), e, FromBigEndian(f),
                        FromBigEndian(g)))
  {
  }

  /** "matroska" and "waymux-mux-mkv". */
  const DOC_TYPE: seq<byte> := [109, 97, 116, 114, 111, 115, 107, 97]
  const APP_NAME: seq<byte> := [119, 97, 121, 109, 117, 120, 45, 109, 117, 120, 45, 109, 107, 118]

  /** Matroska, to be read by version 2 and later, with IDs of up to 4 and sizes of up to 8 bytes. */
  lemma {:induction false} HeaderRead()
    ensures ReadHeader(Body(EBML_FIELDS)) == Some(Header(1, 1, 4, 8, DOC_TYPE, 4, 2))
    ensures |Body(EBML_FIELDS)| < SIZE_LIMIT
  {
    EbmlShape();
    UintRead(ID_EBML_VERSION, 1);
    UintRead(ID_EBML_READ_VERSION, 1);
    UintRead(ID_EBML_MAX_ID_LENGTH, 4);
    UintRead(ID_EBML_MAX_SIZE_LENGTH, 8);
    UintRead(ID_DOC_TYPE_VERSION, 4);
    UintRead(ID_DOC_TYPE_READ_VERSION, 2);
    ReadHeaderOf(EBML_FIELDS);
    SmallBody(EBML_FIELDS, 8);
  }

  lemma {:induction false} EbmlShape()
    ensures Unique(EBML_FIELDS) && Small(EBML_FIELDS, 8)
  {
    OneByte(ID_EBML_VERSION, 1);
    OneByte(ID_EBML_READ_VERSION, 1);
    OneByte(ID_EBML_MAX_ID_LENGTH, 4);
    OneByte(ID_EBML_MAX_SIZE_LENGTH, 8);
    OneByte(ID_DOC_TYPE_VERSION, 4);
    OneByte(ID_DOC_TYPE_READ_VERSION, 2);
    EbmlShapeFrom(UintField(ID_EBML_VERSION, 1), UintField(ID_EBML_READ_VERSION, 1),
                  UintField(ID_EBML_MAX_ID_LENGTH, 4), UintField(ID_EBML_MAX_SIZE_LENGTH, 8),
                  UintField(ID_DOC_TYPE_VERSION, 4), UintField(ID_DOC_TYPE_READ_VERSION, 2));
  }

  lemma {:induction false} OneByte(id: nat, v: nat)
    requires v < 256
    ensures UintField(id, v).id == id && |UintField(id, v).payload| == 1
  {
  }

  lemma {:induction false} EbmlShapeFrom(a: Field, b: Field, c: Field, d: Field, f: Field, g: Field)
    requires a.id == 0x4286 && b.id == 0x42F7 && c.id == 0x42F2 && d.id == 0x42F3 && f.id == 0x4287 && g.id == 0x4285
    requires |a.payload| <= 8 && |b.payload| <= 8 && |c.payload| <= 8 && |d.payload| <= 8
    requires |f.payload| <= 8 && |g.payload| <= 8
    ensures var fs := [a, b, c, d, Field(ID_DOC_TYPE, MATROSKA), f, g]; Unique(fs) && Small(fs, 8)
  {
  }

  /** A tick is a millisecond. */
  lemma {:induction false} InfoRead(duration: seq<byte>)
    requires |duration| == 8
    ensures ReadInfo(Body(InfoFields(duration))) == Some(Info(1_000_000, APP_NAME, APP_NAME, duration))
    ensures |Body(InfoFields(duration))| < SIZE_LIMIT
  {
    var fs := InfoFields(duration);
    UintRead(ID_TIMECODE_SCALE, TIMECODE_SCALE_NS);
    InfoShapeFrom(fs);
    FindField(fs, 0);
    FindField(fs, 1);
    FindField(fs, 2);
    FindField(fs, 3);
    SmallBody(fs, 14);
  }

  lemma {:induction false} InfoShapeFrom(fs: seq<Field>)
    requires |fs| == 4 && fs[0].id == 0x2A_D7B1 && fs[1].id == 0x4D80 && fs[2].id == 0x5741 && fs[3].id == 0x4489
    requires |fs[0].payload| <= 14 && |fs[1].payload| <= 14 && |fs[2].payload| <= 14 && |fs[3].payload| <= 14
    ensures Unique(fs) && Small(fs, 14)
  {
  }

  lemma {:induction false} VideoRead(t: Track)
    requires WritableTrack(t)
    ensures var video := Body(VideoFields(t));
            FindUint(video, 0xB0) == Some(t.width) && FindUint(video, 0xBA) == Some(t.height) && |video| <= 40
  {
    UintRead(ID_PIXEL_WIDTH, t.width);
    UintRead(ID_PIXEL_HEIGHT, t.height);
    TwoFields(UintField(ID_PIXEL_WIDTH, t.width), UintField(ID_PIXEL_HEIGHT, t.height));
  }

  lemma {:induction false} TwoFields(a: Field, b: Field)
    requires ValidId(a.id) && ValidId(b.id) && a.id != b.id && |a.payload| <= 8 && |b.payload| <= 8
    ensures Find(Body([a, b]), a.id) == Some(a.payload) && Find(Body([a, b]), b.id) == Some(b.payload)
    ensures |Body([a, b])| <= 40
  {
    FindField([a, b], 0);
    FindField([a, b], 1);
    SmallBody([a, b], 8);
  }

  lemma {:induction false} TrackSmall(t: Track)
    ensures Small(TrackFields(t)[..4], 8)
  {
    UintRead(ID_TRACK_NUMBER, TRACK_NUMBER);
    UintRead(ID_TRACK_UID, 0xDEAD_BEEF);
    UintRead(ID_TRACK_TYPE, TRACK_TYPE_VIDEO);
    UintRead(ID_FLAG_LACING, 0);
    SmallOfFour(UintField(ID_TRACK_NUMBER, TRACK_NUMBER), UintField(ID_TRACK_UID, 0xDEAD_BEEF),
                UintField(ID_TRACK_TYPE, TRACK_TYPE_VIDEO), UintField(ID_FLAG_LACING, 0), TrackFields(t));
  }

  lemma {:induction false} SmallOfFour(a: Field, b: Field, c: Field, d: Field, fs: seq<Field>)
    requires |a.payload| <= 8 && |b.payload| <= 8 && |c.payload| <= 8 && |d.payload| <= 8
    requires |fs| >= 4 && fs[0] == a && fs[1] == b && fs[2] == c && fs[3] == d
    ensures Small(fs[..4], 8)
  {
  }

  lemma {:induction false} TrackLen(t: Track)
    requires WritableTrack(t)
    ensures |Body(TrackFields(t))| <= |t.codecPrivate| + |t.codecId| + 156
    ensures |Body(TracksFields(t))| <= |t.codecPrivate| + |t.codecId| + 168
  {
    VideoRead(t);
    TrackSmall(t);
    SevenFieldsLen(TrackFields(t));
    SmallBody(TracksFields(t), |Body(TrackFields(t))|);
  }

  lemma {:induction false} SevenFieldsLen(fs: seq<Field>)
    requires |fs| == 7 && Small(fs[..4], 8)
    ensures |Body(fs)| <= |fs[4].payload| + |fs[5].payload| + |fs[6].payload| + 116
  {
    BodyLen(fs);
    assert fs[..6][..5] == fs[..5] && fs[..5][..4] == fs[..4];
    SumBound(fs[..4], 8);
    assert PayloadSum(fs[..6]) == PayloadSum(fs[..5]) + |fs[5].payload|;
    assert PayloadSum(fs[..5]) == PayloadSum(fs[..4]) + |fs[4].payload|;
  }

  lemma {:induction false} FieldsShape(t: Track, fs: seq<Field>)
    requires ValidTrack(t) && |fs| == 7
    requires fs[0].id == 0xD7 && fs[1].id == 0x73C5 && fs[2].id == 0x83 && fs[3].id == 0x9C
    requires fs[4] == Field(0x86, t.codecId) && fs[5] == Field(0x63A2, t.codecPrivate) && fs[6].id == 0xE0
    requires |fs[0].payload| <= 8 && |fs[1].payload| <= 8 && |fs[2].payload| <= 8 && |fs[3].payload| <= 8
    requires |fs[6].payload| <= 40
    ensures Unique(fs)
  {
  }

  lemma {:induction false} ReadFieldsOf(t: Track, fs: seq<Field>)
    requires |fs| == 7 && Unique(fs)
    requires fs[0].id == 0xD7 && fs[1].id == 0x73C5 && fs[2].id == 0x83 && fs[3].id == 0x9C
    requires fs[4] == Field(0x86, t.codecId) && fs[5] == Field(0x63A2, t.codecPrivate) && fs[6].id == 0xE0
    requires FindUint(fs[6].payload, 0xB0) == Some(t.width) && FindUint(fs[6].payload, 0xBA) == Some(t.height)
    ensures ReadFields(Body(fs))
         == Some(Entry(FromBigEndian(fs[0].payload), FromBigEndian(fs[1].payload), FromBigEndian(fs[2].payload),
                       FromBigEndian(fs[3].payload), t))
  {
    AllFound(fs);
    FieldsFrom(t, Body(fs), fs[0].payload, fs[1].payload, fs[2].payload, fs[3].payload, fs[6].payload);
  }

  lemma {:induction false} AllFound(fs: seq<Field>)
    requires Unique(fs)
    ensures forall k :: 0 <= k < |fs| ==> Find(Body(fs), fs[k].id) == Some(fs[k].payload)
  {
    forall k | 0 <= k < |fs| ensures Find(Body(fs), fs[k].id) == Some(fs[k].payload) { FindField(fs, k); }
  }

  lemma {:induction false} FieldsFrom(t: Track, entry: seq<byte>, a: seq<byte>, b: seq<byte>, c: seq<byte>,
                                      d: seq<byte>, video: seq<byte>)
    requires Find(entry, 0xD7) == Some(a) && Find(entry, 0x73C5) == Some(b) && Find(entry, 0x83) == Some(c)
    requires Find(entry, 0x9C) == Some(d) && Find(entry, 0x86) == Some(t.codecId)
    requires Find(entry, 0x63A2) == Some(t.codecPrivate) && Find(entry, 0xE0) == Some(video)
    requires FindUint(video, 0xB0) == Some(t.width) && FindUint(video, 0xBA) == Some(t.height)
    ensures ReadFields(entry)
         == Some(Entry(FromBigEndian(a), FromBigEndian(b), FromBigEndian(c), FromBigEndian(d), t))
  {
  }

  lemma {:induction false} FieldsRead(t: Track)
    requires ValidTrack(t)
    ensures ReadFields(Body(TrackFields(t))) == Some(Entry(1, 0xDEAD_BEEF, 1, 0, t))
  {
    UintRead(ID_TRACK_NUMBER, TRACK_NUMBER);
    UintRead(ID_TRACK_UID, 0xDEAD_BEEF);
    UintRead(ID_TRACK_TYPE, TRACK_TYPE_VIDEO);
    UintRead(ID_FLAG_LACING, 0);
    VideoRead(t);
    FieldsShape(t, TrackFields(t));
    ReadFieldsOf(t, TrackFields(t));
  }

  lemma {:induction false} OneField(a: Field)
    requires ValidId(a.id) && |a.payload| < SIZE_LIMIT
    ensures Find(Body([a]), a.id) == Some(a.payload)
  {
    FindField([a], 0);
  }

  /** Track 1 is a video track without lacing. */
  lemma {:induction false} EntryRead(t: Track)
    requires ValidTrack(t)
    ensures ReadEntry(Body(TracksFields(t))) == Some(Entry(1, 0xDEAD_BEEF, 1, 0, t))
  {
    TrackLen(t);
    OneField(Field(ID_TRACK_ENTRY, Body(TrackFields(t))));
    FieldsRead(t);
  }

  /** What a file of this track reads as, with its frames at nanoseconds. */
  function MovieOf(t: Track, duration: seq<byte>, frames: seq<Shown>): (m: Movie)
  {
    Movie(Header(1, 1, 4, 8, DOC_TYPE, 4, 2), Info(1_000_000, APP_NAME, APP_NAME, duration),
          Entry(1, 0xDEAD_BEEF, 1, 0, t), frames)
  }

  lemma {:induction false} PreambleRead(t: Track, duration: seq<byte>, rest: seq<byte>)
    requires ValidTrack(t) && |duration| == 8
    ensures Demux(Preamble(t, duration) + rest)
         == (var frames := DemuxBlocks(rest, None);
             if frames.None? then None else Some(MovieOf(t, duration, Timed(frames.value, 1_000_000))))
  {
    var (info, tracks) := (Element(ID_INFO, Body(InfoFields(duration))), Element(ID_TRACKS, Body(TracksFields(t))));
    PreambleSplit(t, duration, rest);
    HeaderRead();
    InfoRead(duration);
    TrackLen(t);
    EntryRead(t);
    ReadBackElement(ID_EBML, Body(EBML_FIELDS), SEGMENT_START + (info + (tracks + rest)));
    ReadBackOpenElement(ID_SEGMENT, info + (tracks + rest));
    ReadBackElement(ID_INFO, Body(InfoFields(duration)), tracks + rest);
    ReadBackElement(ID_TRACKS, Body(TracksFields(t)), rest);
  }

  lemma {:induction false} PreambleSplit(t: Track, duration: seq<byte>, rest: seq<byte>)
    ensures Preamble(t, duration) + rest
         == Element(ID_EBML, Body(EBML_FIELDS)) + (SEGMENT_START
            + (Element(ID_INFO, Body(InfoFields(duration))) + (Element(ID_TRACKS, Body(TracksFields(t))) + rest)))
  {
    var (ebml, info, tracks) := (Element(ID_EBML, Body(EBML_FIELDS)), Element(ID_INFO, Body(InfoFields(duration))),
                                 Element(ID_TRACKS, Body(TracksFields(t))));
    Assoc(ebml + SEGMENT_START + info, tracks, rest);
    Assoc(ebml + SEGMENT_START, info, tracks + rest);
    Assoc(ebml, SEGMENT_START, info + (tracks + rest));
  }

  /** The frames, each at as many nanoseconds as its time stamp in milliseconds says. */
  function AllPlayed(fs: seq<Frame>): (r: seq<Shown>)
    ensures |r| == |fs|
    ensures forall i :: 0 <= i < |fs| ==> r[i] == Shown(fs[i].payload, fs[i].pts * 1_000_000, fs[i].key)
  {
    seq(|fs|, i requires 0 <= i < |fs| => Shown(fs[i].payload, fs[i].pts * 1_000_000, fs[i].key))
  }

  lemma {:induction false} TimedExactly(shown: seq<Shown>, fs: seq<Frame>)
    ensures Timed(shown, 1_000_000) == AllPlayed(fs) <==> shown == AllShown(fs)
  {
    if Timed(shown, 1_000_000) == AllPlayed(fs) {
      assert |shown| == |Timed(shown, 1_000_000)| == |fs|;
      forall i | 0 <= i < |fs| ensures shown[i] == AllShown(fs)[i] {
        assert Timed(shown, 1_000_000)[i] == AllPlayed(fs)[i];
      }
    }
    if shown == AllShown(fs) { assert Timed(shown, 1_000_000) == AllPlayed(fs); }
  }

  /** The whole file: every header field, the track, the Duration bytes and the frames at their times all come
      back, exactly when the frames are recoverable. */
  lemma {:induction false} FileRoundTrip(t: Track, duration: seq<byte>, fs: seq<Frame>)
    requires ValidTrack(t) && |duration| == 8 && Slices(fs)
    ensures Demux(File(t, duration, fs)) == Some(MovieOf(t, duration, AllPlayed(fs))) <==> Recoverable(CLOSED, fs)
  {
    PreambleRead(t, duration, Stream(CLOSED, fs));
    StreamRoundTrip(CLOSED, fs, None);
    var frames := DemuxBlocks(Stream(CLOSED, fs), None);
    if frames.Some? { TimedExactly(frames.value, fs); }
  }

  // ----- which runs are recoverable

  /** A caller's view: the first frame is not before 0 and no frame is more than 32768 ms before an
      earlier one. Every non-decreasing run from 0 or later is one of these. */
  ghost predicate NearlySorted(fs: seq<Frame>)
  {
    && (fs != [] ==> fs[0].pts >= 0)
    && forall i, j :: 0 <= i < j < |fs| ==> fs[j].pts >= fs[i].pts - 32768
  }

  ghost predicate Sorted(fs: seq<Frame>)
  {
    && (fs != [] ==> fs[0].pts >= 0)
    && forall i, j :: 0 <= i < j < |fs| ==> fs[i].pts <= fs[j].pts
  }

  lemma {:induction false} NearlySortedFrom(st: Opener, fs: seq<Frame>)
    requires forall f :: f in fs ==> Fits(f)
    requires if st.open then st.base >= 0 && forall f :: f in fs ==> f.pts >= st.base - 32768
             else fs != [] ==> fs[0].pts >= 0
    requires forall i, j :: 0 <= i < j < |fs| ==> fs[j].pts >= fs[i].pts - 32768
    ensures Recoverable(st, fs)
    decreases |fs|
  {
    if fs == [] {
    } else {
      var next := Next(st, fs[0]);
      assert next.base == fs[0].pts || next == st;
      forall f | f in fs[1..] ensures f.pts >= next.base - 32768 {
        var j :| 0 <= j < |fs[1..]| && fs[1..][j] == f;
        assert f == fs[j + 1];
      }
      NearlySortedFrom(next, fs[1..]);
    }
  }

  lemma {:induction false} NearlySortedRecovered(t: Track, duration: seq<byte>, fs: seq<Frame>)
    requires ValidTrack(t) && |duration| == 8 && (forall f :: f in fs ==> Fits(f))
    requires NearlySorted(fs)
    ensures Demux(File(t, duration, fs)) == Some(MovieOf(t, duration, AllPlayed(fs)))
  {
    NearlySortedFrom(CLOSED, fs);
    forall i | 0 <= i < |fs| ensures |fs[i].payload| < SLICE_LIMIT { assert fs[i] in fs; }
    FileRoundTrip(t, duration, fs);
  }

  /** Neither condition can be dropped: a frame before 0 moves to 0, and a frame 40 s before its
      Cluster comes back in the future. */
  lemma {:induction false} OutOfTimeIsLost()
    ensures var early := Frame([], -1, true); ReadBack(CLOSED, early).pts == 0
    ensures var late := Frame([], 0, false); ReadBack(Opener(true, 40000), late).pts == 65536
    ensures !Recoverable(CLOSED, [Frame([], -1, true)])
    ensures !Recoverable(CLOSED, [Frame([], 40000, true), Frame([], 0, false)])
  {
    var fs := [Frame([], 40000, true), Frame([], 0, false)];
    assert fs[1..] == [Frame([], 0, false)];
    assert Next(CLOSED, fs[0]) == Opener(true, 40000);
  }

  // ----- Clusters

  /** Over a non-decreasing run the open Cluster's base is one of the earlier times. */
  lemma {:induction false} OpenBase(fs: seq<Frame>)
    requires Sorted(fs) && fs != []
    ensures Run(CLOSED, fs).open && 0 <= Run(CLOSED, fs).base <= fs[|fs| - 1].pts
  {
    var n := |fs| - 1;
    assert fs == fs[..n] + [fs[n]];
    StreamSnoc(CLOSED, fs[..n], fs[n]);
    if n == 0 {
    } else {
      OpenBase(fs[..n]);
    }
  }

  /** Every frame of a non-decreasing run lies 0 to 1000 ms into its Cluster, so that the 16-bit delta
      is exact; Cluster bases strictly increase; a keyframe that does not start a Cluster is at most 50 ms
      into one; and no frame starts a Cluster without need. */
  lemma {:induction false} ClusterInvariant(fs: seq<Frame>, i: nat)
    requires Sorted(fs) && i < |fs|
    ensures var (before, f) := (Run(CLOSED, fs[..i]), fs[i]);
            var after := Run(CLOSED, fs[..i + 1]);
            && 0 <= f.pts - after.base <= 1000
            && ReadBack(before, f).pts == f.pts
            && (after != before && before.open ==> after.base > before.base)
            && (after != before <==> !before.open || f.pts - before.base > 1000 || (f.key && f.pts - before.base > 50))
            && (f.key ==> f.pts == after.base || (after == before && f.pts - after.base <= 50))
  {
    assert fs[..i + 1] == fs[..i] + [fs[i]];
    StreamSnoc(CLOSED, fs[..i], fs[i]);
    if i > 0 { OpenBase(fs[..i]); }
    ClusterStep(Run(CLOSED, fs[..i]), fs[i]);
  }

  lemma {:induction false} ClusterStep(before: Opener, f: Frame)
    requires if before.open then 0 <= before.base <= f.pts else f.pts >= 0
    ensures var after := Next(before, f);
            && 0 <= f.pts - after.base <= 1000
            && ReadBack(before, f).pts == f.pts
            && (after != before && before.open ==> after.base > before.base)
            && (after != before <==> !before.open || f.pts - before.base > 1000 || (f.key && f.pts - before.base > 50))
            && (f.key ==> f.pts == after.base || (after == before && f.pts - after.base <= 50))
  {
    TimeExactly(before, f);
  }

  // ----- the Duration patch

  /** Everything before the eight Duration bytes; it is the same for every file. */
  const BEFORE_DURATION: seq<byte> :=
    Element(ID_EBML, Body(EBML_FIELDS)) + SEGMENT_START
    + ((IdField(ID_INFO) + SizeField(|Body(APP_FIELDS)| + 11))
       + (Body(APP_FIELDS) + (IdField(ID_DURATION) + SizeField(8))))

  function AfterDuration(t: Track, fs: seq<Frame>): (s: seq<byte>)
  {
    Element(ID_TRACKS, Body(TracksFields(t))) + Stream(CLOSED, fs)
  }

  lemma {:induction false} FileSplit(t: Track, duration: seq<byte>, fs: seq<Frame>)
    requires |duration| == 8
    ensures File(t, duration, fs) == BEFORE_DURATION + duration + AfterDuration(t, fs)
  {
    var (head, dur) := (Body(APP_FIELDS), IdField(ID_DURATION) + SizeField(8));
    var info := IdField(ID_INFO) + SizeField(|head| + 11);
    var start := Element(ID_EBML, Body(EBML_FIELDS)) + SEGMENT_START;
    BodySnoc(APP_FIELDS, Field(ID_DURATION, duration));
    assert |dur| == 3 by { Powers(); }
    Assoc(head, dur, duration);
    Assoc(info, head + dur, duration);
    Assoc(start, info + (head + dur), duration);
    Assoc(start + Element(ID_INFO, Body(InfoFields(duration))), Element(ID_TRACKS, Body(TracksFields(t))),
        Stream(CLOSED, fs));
  }

  function LastPts(fs: seq<Frame>): (pts: i64) { if fs == [] then 0 else fs[|fs| - 1].pts }

  /** Whatever the frames are, and whether or not the demuxer can read them, replacing the eight Duration
      bytes changes the Duration it reports and nothing else. */
  lemma {:induction false} PatchChangesOnlyDuration(t: Track, was: seq<byte>, now: seq<byte>, fs: seq<Frame>)
    requires ValidTrack(t) && |was| == |now| == 8
    ensures var (a, b) := (Demux(File(t, was, fs)), Demux(File(t, now, fs)));
            && a.Some? == b.Some?
            && (a.Some? ==> a.value.info.duration == was
                            && b.value == a.value.(info := a.value.info.(duration := now)))
  {
    PreambleRead(t, was, Stream(CLOSED, fs));
    PreambleRead(t, now, Stream(CLOSED, fs));
  }

  /** A finished recording reads back as the frames written exactly when they are recoverable. */
  lemma {:induction false} RecordingReadBack(t: Track, duration: seq<byte>, fs: seq<Frame>)
    requires ValidTrack(t) && Slices(fs) && |duration| == 8
    ensures Demux(BEFORE_DURATION + duration + AfterDuration(t, fs)) == Some(MovieOf(t, duration, AllPlayed(fs)))
       <==> Recoverable(CLOSED, fs)
  {
    FileSplit(t, duration, fs);
    FileRoundTrip(t, duration, fs);
  }

  /** The length a movie reports, in nanoseconds. */
  function LengthNs(m: Movie): (r: Option<nat>)
  {
    var ticks := Float64.FromBytes(m.info.duration);
    if ticks.None? then None else Some(ticks.value * m.info.scale)
  }

  /** The Duration written at the end is past every frame of a non-decreasing run exactly when it is past
      the last one. */
  lemma {:induction false} DurationCovers(t: Track, fs: seq<Frame>)
    requires Sorted(fs) && fs != []
    ensures var m := MovieOf(t, Duration.DurationBytes(Max0(LastPts(fs))), AllPlayed(fs));
            && LengthNs(m).Some?
            && ((forall i :: 0 <= i < |fs| ==> m.frames[i].pts < LengthNs(m).value) <==> Duration.Covered(LastPts(fs)))
  {
    var m := MovieOf(t, Duration.DurationBytes(Max0(LastPts(fs))), AllPlayed(fs));
    Duration.CoversExactly(LastPts(fs));
    assert m.frames[|fs| - 1].pts == LastPts(fs) * 1_000_000;
    forall i | 0 <= i < |fs| ensures m.frames[i].pts <= LastPts(fs) * 1_000_000 {
      assert fs[i].pts <= fs[|fs| - 1].pts;
    }
  }

  /** Of a run that ends before 2^53 - 16 ms, the movie is exactly 16 ms longer than the last time stamp. */
  lemma {:induction false} DurationExact(t: Track, fs: seq<Frame>)
    requires fs != [] ==> fs[|fs| - 1].pts + 16 < 0x20_0000_0000_0000
    ensures LengthNs(MovieOf(t, Duration.DurationBytes(Max0(LastPts(fs))), AllPlayed(fs)))
         == Some((if fs == [] || fs[|fs| - 1].pts < 0 then 16 else fs[|fs| - 1].pts + 16) * 1_000_000)
  {
    var last: nat := if fs == [] || fs[|fs| - 1].pts < 0 then 0 else fs[|fs| - 1].pts;
    assert Max0(LastPts(fs)) == last;
    LengthExact(t, last, AllPlayed(fs));
  }

  lemma {:induction false} LengthExact(t: Track, last: nat, frames: seq<Shown>)
    requires last + 16 < 0x20_0000_0000_0000
    ensures LengthNs(MovieOf(t, Duration.DurationBytes(last), frames)) == Some((last + 16) * 1_000_000)
  {
    Duration.CoversExactly(last);
    Duration.ExactBelow(last);
  }
}
