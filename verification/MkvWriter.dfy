/** The streaming muxer itself: `MkvWriter` and the functions that write its header, working on a
    seekable sink (crates/waymux-mux-mkv/src/lib.rs). */
module MkvWriter {
  import opened Bytes
  import opened Ebml
  import opened MkvFormat
  import opened MkvRoundTrip
  import Duration

  const ZERO_DURATION: seq<byte> := [0, 0, 0, 0, 0, 0, 0, 0]

  /** Append an unsigned-integer child to a master element's body. */
  method AddU64(body: Sink, id: nat, v: nat)
    requires id < U32 && v < U64
    modifies body`head
    ensures body.head == old(body.head) + FieldBytes(UintField(id, v))
  {
    WriteElementU64(body, id, v);
  }

  /** Append a binary or string child. */
  method AddBytes(body: Sink, id: nat, payload: seq<byte>)
    requires id < U32 && |payload| < U64
    modifies body`head
    ensures body.head == old(body.head) + FieldBytes(Field(id, payload))
  {
    WriteElementBytes(body, id, payload);
  }

  function FieldBytes(f: Field): (s: seq<byte>) { Element(f.id, f.payload) }

  lemma {:induction false} BodyOfUpToFour(a: Field, b: Field, c: Field, d: Field)
    ensures [] + FieldBytes(a) == Body([a])
    ensures [] + FieldBytes(a) + FieldBytes(b) == Body([a, b])
    ensures [] + FieldBytes(a) + FieldBytes(b) + FieldBytes(c) == Body([a, b, c])
    ensures [] + FieldBytes(a) + FieldBytes(b) + FieldBytes(c) + FieldBytes(d) == Body([a, b, c, d])
  {
    BodySnoc([], a);
    BodySnoc([a], b);
    BodySnoc([a, b], c);
    BodySnoc([a, b, c], d);
    assert [] + [a] == [a] && [a] + [b] == [a, b] && [a, b] + [c] == [a, b, c] && [a, b, c] + [d] == [a, b, c, d];
  }

  lemma {:induction false} BodyOfSeven(a: Field, b: Field, c: Field, d: Field, e: Field, f: Field, g: Field)
    ensures [] + FieldBytes(a) + FieldBytes(b) + FieldBytes(c) + FieldBytes(d)
            + FieldBytes(e) + FieldBytes(f) + FieldBytes(g) == Body([a, b, c, d, e, f, g])
  {
    BodyOfUpToFour(a, b, c, d);
    BodySnoc([a, b, c, d], e);
    BodySnoc([a, b, c, d, e], f);
    BodySnoc([a, b, c, d, e, f], g);
    assert [a, b, c, d] + [e] == [a, b, c, d, e] && [a, b, c, d, e] + [f] == [a, b, c, d, e, f];
    assert [a, b, c, d, e, f] + [g] == [a, b, c, d, e, f, g];
  }

  method WriteEbmlHeader(w: Sink)
    modifies w`head
    ensures w.head == old(w.head) + Element(ID_EBML, Body(EBML_FIELDS))
  {
    var body := new Sink();
    AddU64(body, ID_EBML_VERSION, 1);
    AddU64(body, ID_EBML_READ_VERSION, 1);
    AddU64(body, ID_EBML_MAX_ID_LENGTH, 4);
    AddU64(body, ID_EBML_MAX_SIZE_LENGTH, 8);
    AddBytes(body, ID_DOC_TYPE, MATROSKA);
    AddU64(body, ID_DOC_TYPE_VERSION, 4);
    AddU64(body, ID_DOC_TYPE_READ_VERSION, 2);
    BodyOfSeven(UintField(ID_EBML_VERSION, 1), UintField(ID_EBML_READ_VERSION, 1), UintField(ID_EBML_MAX_ID_LENGTH, 4),
                UintField(ID_EBML_MAX_SIZE_LENGTH, 8), Field(ID_DOC_TYPE, MATROSKA),
                UintField(ID_DOC_TYPE_VERSION, 4), UintField(ID_DOC_TYPE_READ_VERSION, 2));
    HeaderRead();
    WriteElementBytes(w, ID_EBML, body.head);
  }

  method WriteSegmentStart(w: Sink)
    modifies w`head
    ensures w.head == old(w.head) + SEGMENT_START
  {
    Assoc(w.head, IdField(ID_SEGMENT), SizeField(UNKNOWN_SIZE));
    WriteElementId(w, ID_SEGMENT);
    WriteElementSize(w, UNKNOWN_SIZE);
  }

  /** The Info body with a placeholder Duration, and the offset of the Duration value in it. */
  method InfoBytes() returns (b: seq<byte>, offset: nat)
    ensures b == Body(InfoFields(ZERO_DURATION)) && offset == |Body(APP_FIELDS)| + 3
  {
    var body := new Sink();
    AddU64(body, ID_TIMECODE_SCALE, TIMECODE_SCALE_NS);
    AddBytes(body, ID_MUXING_APP, APP);
    AddBytes(body, ID_WRITING_APP, APP);
    BodyOfUpToFour(UintField(ID_TIMECODE_SCALE, TIMECODE_SCALE_NS), Field(ID_MUXING_APP, APP),
        Field(ID_WRITING_APP, APP),
                   Field(0, []));
    offset := |body.head| + 3;
    AddBytes(body, ID_DURATION, ZERO_DURATION);
    BodySnoc(APP_FIELDS, Field(ID_DURATION, ZERO_DURATION));
    b := body.head;
  }

  /** Returns the absolute offset of the Duration value. */
  method WriteInfo(w: Sink) returns (offset: nat)
    modifies w`head
    ensures w.head == old(w.head) + Element(ID_INFO, Body(InfoFields(ZERO_DURATION)))
    ensures offset == |old(w.head)| + |IdField(ID_INFO) + SizeField(|Body(APP_FIELDS)| + 11)| + |Body(APP_FIELDS)| + 3
  {
    var body, offsetInBody := InfoBytes();
    InfoFits();
    ghost var d := w.head;
    WriteElementId(w, ID_INFO);
    WriteElementSize(w, |body|);
    offset := |w.head| + offsetInBody;
    w.WriteAll(body);
    ThreeWrites(d, IdField(ID_INFO), SizeField(|body|), body);
  }

  lemma {:induction false} InfoLen()
    ensures |Body(InfoFields(ZERO_DURATION))| == |Body(APP_FIELDS)| + 11 && |IdField(ID_DURATION) + SizeField(8)| == 3
  {
    BodySnoc(APP_FIELDS, Field(ID_DURATION, ZERO_DURATION));
    assert |IdField(ID_DURATION) + SizeField(8)| == 3 by { Powers(); }
  }

  lemma {:induction false} InfoFits()
    ensures |Body(InfoFields(ZERO_DURATION))| == |Body(APP_FIELDS)| + 11 < SIZE_LIMIT
  {
    InfoRead(ZERO_DURATION);
    InfoLen();
  }

  method VideoBytes(t: Track) returns (b: seq<byte>)
    requires WritableTrack(t)
    ensures b == Body(VideoFields(t))
  {
    var video := new Sink();
    AddU64(video, ID_PIXEL_WIDTH, t.width);
    AddU64(video, ID_PIXEL_HEIGHT, t.height);
    BodyOfUpToFour(UintField(ID_PIXEL_WIDTH, t.width), UintField(ID_PIXEL_HEIGHT, t.height), Field(0, []),
        Field(0, []));
    b := video.head;
  }

  method TrackBytes(t: Track, video: seq<byte>) returns (b: seq<byte>)
    requires WritableTrack(t) && video == Body(VideoFields(t)) && |video| <= 40
    ensures b == Body(TrackFields(t))
  {
    var track := new Sink();
    AddU64(track, ID_TRACK_NUMBER, TRACK_NUMBER);
    AddU64(track, ID_TRACK_UID, 0xDEAD_BEEF);
    AddU64(track, ID_TRACK_TYPE, TRACK_TYPE_VIDEO);
    AddU64(track, ID_FLAG_LACING, 0);
    AddBytes(track, ID_CODEC_ID, t.codecId);
    AddBytes(track, ID_CODEC_PRIVATE, t.codecPrivate);
    AddBytes(track, ID_VIDEO, video);
    BodyOfSeven(UintField(ID_TRACK_NUMBER, TRACK_NUMBER), UintField(ID_TRACK_UID, 0xDEAD_BEEF),
                UintField(ID_TRACK_TYPE, TRACK_TYPE_VIDEO), UintField(ID_FLAG_LACING, 0),
                Field(ID_CODEC_ID, t.codecId), Field(ID_CODEC_PRIVATE, t.codecPrivate), Field(ID_VIDEO, video));
    b := track.head;
  }

  method WriteTracks(w: Sink, t: Track)
    requires WritableTrack(t)
    modifies w`head
    ensures w.head == old(w.head) + Element(ID_TRACKS, Body(TracksFields(t)))
  {
    var video := VideoBytes(t);
    VideoRead(t);
    var track := TrackBytes(t, video);
    TrackLen(t);
    var tracks := new Sink();
    AddBytes(tracks, ID_TRACK_ENTRY, track);
    BodyOfUpToFour(Field(ID_TRACK_ENTRY, track), Field(0, []), Field(0, []), Field(0, []));
    WriteElementBytes(w, ID_TRACKS, tracks.head);
  }

  method WriteClusterStart(w: Sink, timecode: i64)
    modifies w`head
    ensures w.head == old(w.head) + ClusterStart(timecode)
  {
    var time := if timecode > 0 then timecode else 0;
    ThreeWrites(w.head, IdField(ID_CLUSTER), SizeField(UNKNOWN_SIZE), UintElement(ID_TIMECODE, time));
    WriteElementId(w, ID_CLUSTER);
    WriteElementSize(w, UNKNOWN_SIZE);
    WriteElementU64(w, ID_TIMECODE, time);
  }

  lemma {:induction false} Block4(p: seq<byte>, a: seq<byte>, b: seq<byte>, c: seq<byte>, d: seq<byte>)
    ensures p + a + b + c + d == p + (a + b + (c + d))
  {
  }

  method WriteSimpleBlock(w: Sink, delta: int, key: bool, payload: seq<byte>)
    requires |payload| < SLICE_LIMIT
    modifies w`head
    ensures w.head == old(w.head) + SimpleBlock(delta, key, payload)
  {
    var header := BlockHeader(delta, key);
    BlockSize(delta, key, payload);
    var bodyLen := |header| + |payload|;
    Block4(w.head, IdField(ID_SIMPLE_BLOCK), SizeField(bodyLen), header, payload);
    WriteElementId(w, ID_SIMPLE_BLOCK);
    WriteElementSize(w, bodyLen);
    w.WriteAll(header);
    w.WriteAll(payload);
  }

  method BlockHeader(delta: int, key: bool) returns (header: seq<byte>)
    ensures header == Vint(TRACK_NUMBER) + BigEndian(delta % 0x1_0000, 2) + [if key then 0x80 else 0x00]
  {
    var tmp := new Sink();
    WriteVint(tmp, TRACK_NUMBER);
    assert tmp.head == Vint(TRACK_NUMBER);
    header := tmp.head + BigEndian(delta % 0x1_0000, 2) + [if key then 0x80 else 0x00];
  }

  /** The bytes with those at an offset replaced, and no others. */
  function Spliced(data: seq<byte>, at: nat, b: seq<byte>): (r: seq<byte>)
    requires at + |b| <= |data|
  {
    data[..at] + b + data[at + |b|..]
  }

  lemma {:induction false} Patched(prefix: seq<byte>, a: seq<byte>, was: seq<byte>, now: seq<byte>, z: seq<byte>,
                                   beyond: seq<byte>)
    requires |was| == |now|
    ensures var (data, at) := (prefix + (a + was + z) + beyond, |prefix| + |a|);
            at + |now| <= |data| && Spliced(data, at, now) == prefix + (a + now + z) + beyond
  {
    var (data, at) := (prefix + (a + was + z) + beyond, |prefix| + |a|);
    assert data[..at] == prefix + a && data[at + |now|..] == z + beyond;
  }

  lemma {:induction false} PatchedOutput(prefix: seq<byte>, a: seq<byte>, was: seq<byte>, now: seq<byte>, z: seq<byte>,
                                         under: seq<byte>)
    requires |was| == |now|
    ensures var (data, at) := (Overlay(prefix + (a + was + z), under), |prefix| + |a|);
            at + |now| <= |data| && Spliced(data, at, now) == Overlay(prefix + (a + now + z), under)
  {
    assert |prefix + (a + was + z)| == |prefix + (a + now + z)|;
    Patched(prefix, a, was, now, z, From(under, |prefix + (a + was + z)|));
  }

  class Writer {
    const inner: Sink
    var clusterOpen: bool
    var clusterBaseMs: i64
    var framesTotal: nat
    var lastPtsMs: i64
    const durationValueOffset: nat

    // what was in the output before, the header on both sides of the Duration value, and what follows it
    ghost const prefix: seq<byte>
    ghost const before: seq<byte>
    ghost const tracks: seq<byte>
    ghost var clusters: seq<byte>

    ghost predicate Valid()
      reads this, inner
    {
      && inner.head == prefix + (before + ZERO_DURATION + (tracks + clusters))
      && durationValueOffset == |prefix| + |before|
    }

    ghost function State(): Opener
      reads this
    {
      Opener(clusterOpen, clusterBaseMs)
    }

    /** Appends to an output that may already hold other bytes. */
    constructor NewForCodec(inner: Sink, t: Track)
      requires WritableTrack(t)
      modifies inner`head
      ensures Valid() && this.inner == inner && prefix == old(inner.head) && clusters == [] && State() == CLOSED
      ensures before == BEFORE_DURATION && tracks == Element(ID_TRACKS, Body(TracksFields(t)))
      ensures framesTotal == 0 && lastPtsMs == 0
    {
      this.inner := inner;
      var offset := WritePreamble(inner, t);
      clusterOpen, clusterBaseMs, framesTotal, lastPtsMs := false, 0, 0, 0;
      durationValueOffset := offset;
      prefix, before, tracks := old(inner.head), BEFORE_DURATION, Element(ID_TRACKS, Body(TracksFields(t)));
      clusters := [];
      new;
      assert tracks + clusters == tracks;
    }

    method WriteFrame(f: Frame)
      requires Valid() && |f.payload| < SLICE_LIMIT
      modifies this, inner`head
      ensures Valid() && clusters == old(clusters) + FrameBytes(old(State()), f)
      ensures State() == Next(old(State()), f)
      ensures framesTotal == old(framesTotal) + 1 && lastPtsMs == f.pts
    {
      var needNewCluster := !clusterOpen
        || WrappingSub(f.pts, clusterBaseMs) > CLUSTER_DURATION_MS
        || (f.key && WrappingSub(f.pts, clusterBaseMs) > 50);
      if needNewCluster {
        clusters := StartCluster(f.pts);
        clusterOpen, clusterBaseMs := true, f.pts;
      }
      var delta := WrappingSub(f.pts, clusterBaseMs);
      clusters := AddBlock(delta, f.key, f.payload);
      framesTotal := framesTotal + 1;
      lastPtsMs := f.pts;
      FrameGrown(old(clusters), old(State()), f, clusters);
    }

    method StartCluster(pts: i64) returns (ghost grown: seq<byte>)
      requires Valid()
      modifies inner`head
      ensures inner.head == prefix + (before + ZERO_DURATION + (tracks + grown))
      ensures grown == clusters + ClusterStart(pts)
    {
      grown := clusters + ClusterStart(pts);
      Regroup(prefix, before + ZERO_DURATION, tracks, clusters, ClusterStart(pts));
      WriteClusterStart(inner, pts);
    }

    method AddBlock(delta: int, key: bool, payload: seq<byte>) returns (ghost grown: seq<byte>)
      requires Valid() && |payload| < SLICE_LIMIT
      modifies inner`head
      ensures inner.head == prefix + (before + ZERO_DURATION + (tracks + grown))
      ensures grown == clusters + SimpleBlock(delta, key, payload)
    {
      grown := clusters + SimpleBlock(delta, key, payload);
      Regroup(prefix, before + ZERO_DURATION, tracks, clusters, SimpleBlock(delta, key, payload));
      WriteSimpleBlock(inner, delta, key, payload);
    }

    /** Overwrites the eight bytes of the Duration and nothing else; the length stays, and the position is
        back at the end. */
    method Finish()
      requires Valid()
      modifies inner
      ensures var (duration, was) := (Duration.DurationBytes(Max0(lastPtsMs)), old(inner.Contents()));
              && durationValueOffset + 8 <= |was|
              && inner.Contents() == Spliced(was, durationValueOffset, duration)
              && inner.Contents() == Overlay(prefix + (before + duration + (tracks + clusters)), old(inner.under))
              && inner.head == inner.Contents()
    {
      PatchDuration(Duration.DurationBytes(Max0(lastPtsMs)));
    }

    method PatchDuration(duration: seq<byte>)
      requires Valid() && |duration| == 8
      modifies inner
      ensures var was := old(inner.Contents());
              && durationValueOffset + 8 <= |was|
              && inner.Contents() == Spliced(was, durationValueOffset, duration)
              && inner.Contents() == Overlay(prefix + (before + duration + (tracks + clusters)), old(inner.under))
              && inner.head == inner.Contents()
    {
      PatchedOutput(prefix, before, ZERO_DURATION, duration, tracks + clusters, inner.under);
      Patch(inner, durationValueOffset, duration);
    }
  }

  lemma {:induction false} FrameGrown(was: seq<byte>, st: Opener, f: Frame, now: seq<byte>)
    requires now == (if Opens(st, f) then was + ClusterStart(f.pts) else was)
                    + SimpleBlock(WrappingSub(f.pts, Next(st, f).base), f.key, f.payload)
    ensures now == was + FrameBytes(st, f)
  {
    Assoc(was, if Opens(st, f) then ClusterStart(f.pts) else [],
          SimpleBlock(WrappingSub(f.pts, Next(st, f).base), f.key, f.payload));
  }

  /** Seek to an offset, overwrite the bytes there, and go back to the end. */
  method Patch(w: Sink, at: nat, b: seq<byte>)
    requires at + |b| <= |w.Contents()|
    modifies w
    ensures w.Contents() == Spliced(old(w.Contents()), at, b)
    ensures w.head == w.Contents()
  {
    w.SeekStart(at);
    w.WriteAll(b);
    w.SeekEnd();
  }

  lemma {:induction false} Regroup(p: seq<byte>, a: seq<byte>, b: seq<byte>, c: seq<byte>, d: seq<byte>)
    ensures (p + (a + (b + c))) + d == p + (a + (b + (c + d)))
  {
    assert (b + c) + d == b + (c + d);
    assert (a + (b + c)) + d == a + (b + (c + d));
  }

  /** The header of `new_for_codec`; returns the absolute offset of the Duration value. */
  method WritePreamble(w: Sink, t: Track) returns (offset: nat)
    requires WritableTrack(t)
    modifies w`head
    ensures w.head == old(w.head) + (BEFORE_DURATION + ZERO_DURATION + Element(ID_TRACKS, Body(TracksFields(t))))
    ensures offset == |old(w.head)| + |BEFORE_DURATION|
  {
    ghost var (d, tracks) := (w.head, Element(ID_TRACKS, Body(TracksFields(t))));
    WriteEbmlHeader(w);
    WriteSegmentStart(w);
    offset := WriteInfo(w);
    WriteTracks(w, t);
    InfoLen();
    InfoAround();
    FourWrites(d, Element(ID_EBML, Body(EBML_FIELDS)), SEGMENT_START,
        Element(ID_INFO, Body(InfoFields(ZERO_DURATION))), tracks);
  }

  lemma {:induction false} InfoAround()
    ensures Element(ID_EBML, Body(EBML_FIELDS)) + SEGMENT_START + Element(ID_INFO, Body(InfoFields(ZERO_DURATION)))
         == BEFORE_DURATION + ZERO_DURATION
  {
    var (head, dur) := (Body(APP_FIELDS), IdField(ID_DURATION) + SizeField(8));
    var info := IdField(ID_INFO) + SizeField(|head| + 11);
    InfoLen();
    BodySnoc(APP_FIELDS, Field(ID_DURATION, ZERO_DURATION));
    Assoc(head, dur, ZERO_DURATION);
    Assoc(info, head + dur, ZERO_DURATION);
    Assoc(Element(ID_EBML, Body(EBML_FIELDS)) + SEGMENT_START, info + (head + dur), ZERO_DURATION);
  }

  lemma {:induction false} FourWrites(p: seq<byte>, a: seq<byte>, b: seq<byte>, c: seq<byte>, d: seq<byte>)
    ensures p + a + b + c + d == p + (a + b + c + d)
  {
  }

  /** The writer has written the first i frames. */
  ghost predicate Written(w: Writer, fs: seq<Frame>, i: nat)
    requires i <= |fs|
    reads w, w.inner
  {
    && w.Valid() && w.framesTotal == i
    && w.clusters == Stream(CLOSED, fs[..i]) && w.State() == Run(CLOSED, fs[..i])
    && w.lastPtsMs == if i == 0 then 0 else fs[i - 1].pts
  }

  method WriteNext(w: Writer, fs: seq<Frame>, i: nat)
    requires i < |fs| && |fs[i].payload| < SLICE_LIMIT && Written(w, fs, i)
    modifies w, w.inner`head
    ensures Written(w, fs, i + 1)
  {
    StreamTake(fs, i);
    w.WriteFrame(fs[i]);
  }

  /** Writes a run of frames in order. */
  method WriteFrames(w: Writer, fs: seq<Frame>)
    requires w.Valid() && Slices(fs) && w.State() == CLOSED && w.clusters == [] && w.framesTotal == 0 && w.lastPtsMs
          == 0
    modifies w, w.inner`head
    ensures w.Valid() && w.clusters == Stream(CLOSED, fs) && w.framesTotal == |fs|
    ensures w.lastPtsMs == LastPts(fs)
  {
    var i := 0;
    while i < |fs|
      invariant 0 <= i <= |fs| && Written(w, fs, i)
      modifies w, w.inner`head
    {
      WriteNext(w, fs, i);
      i := i + 1;
    }
    AllWritten(w, fs);
  }

  lemma {:induction false} AllWritten(w: Writer, fs: seq<Frame>)
    requires Written(w, fs, |fs|)
    ensures w.clusters == Stream(CLOSED, fs) && w.lastPtsMs == LastPts(fs)
  {
    assert fs[..|fs|] == fs;
  }

  lemma {:induction false} StreamTake(fs: seq<Frame>, i: nat)
    requires i < |fs|
    ensures Stream(CLOSED, fs[..i + 1]) == Stream(CLOSED, fs[..i]) + FrameBytes(Run(CLOSED, fs[..i]), fs[i])
    ensures Run(CLOSED, fs[..i + 1]) == Next(Run(CLOSED, fs[..i]), fs[i])
  {
    assert fs[..i + 1] == fs[..i] + [fs[i]];
    StreamSnoc(CLOSED, fs[..i], fs[i]);
  }

  /** Every frame, then the patched Duration. */
  method Complete(w: Writer, fs: seq<Frame>)
    requires w.Valid() && Slices(fs) && w.State() == CLOSED && w.clusters == [] && w.framesTotal == 0 && w.lastPtsMs
          == 0
    modifies w, w.inner
    ensures var file := w.before + Duration.DurationBytes(Max0(LastPts(fs))) + (w.tracks + Stream(CLOSED, fs));
            w.inner.Contents() == Overlay(w.prefix + file, old(w.inner.under))
    ensures w.framesTotal == |fs|
  {
    WriteFrames(w, fs);
    w.Finish();
  }

  /** The bytes of a recording. */
  function Recorded(t: Track, fs: seq<Frame>): (s: seq<byte>)
  {
    BEFORE_DURATION + Duration.DurationBytes(Max0(LastPts(fs))) + AfterDuration(t, fs)
  }

  lemma {:induction false} OverlayNothing(head: seq<byte>, under: seq<byte>, b: seq<byte>)
    requires Overlay(head, under) == []
    ensures Overlay(head + b, under) == b
  {
    assert head == [] && under == [];
  }

  lemma {:induction false} RecordedAlone(head: seq<byte>, under: seq<byte>, t: Track, fs: seq<Frame>)
    requires ValidTrack(t) && Slices(fs) && Overlay(head, under) == []
    ensures Demux(Overlay(head + Recorded(t, fs), under))
            == Some(MovieOf(t, Duration.DurationBytes(Max0(LastPts(fs))), AllPlayed(fs)))
       <==> Recoverable(CLOSED, fs)
  {
    OverlayNothing(head, under, Recorded(t, fs));
    RecordingReadBack(t, Duration.DurationBytes(Max0(LastPts(fs))), fs);
  }

  /** A whole recording, written over whatever the output holds, at any position. On an empty output it reads
      back as the frames written exactly when they are recoverable. */
  method Record(inner: Sink, t: Track, fs: seq<Frame>) returns (framesTotal: nat)
    requires WritableTrack(t) && Slices(fs)
    modifies inner
    ensures inner.Contents() == Overwrite(old(inner.Contents()), |old(inner.head)|, Recorded(t, fs))
    ensures framesTotal == |fs|
    ensures old(inner.Contents()) == [] && ValidTrack(t) ==>
              (Demux(inner.Contents()) == Some(MovieOf(t, Duration.DurationBytes(Max0(LastPts(fs))), AllPlayed(fs)))
               <==> Recoverable(CLOSED, fs))
  {
    ghost var (head, under) := (inner.head, inner.under);
    var w := new Writer.NewForCodec(inner, t);
    Complete(w, fs);
    framesTotal := w.framesTotal;
    WriteOverwrites(head, under, Recorded(t, fs));
    if Overlay(head, under) == [] && ValidTrack(t) { RecordedAlone(head, under, t, fs); }
  }
}
