# waymux: a Dafny model of the recorder, the compositor and the daemon's protocols

waymux runs Wayland sessions under a daemon. This project models the parts of it whose correctness is not
visible in any one function, and proves what they promise over every input, every run and every interleaving:

- **The Matroska muxer.** A streaming writer whose file is read back by an independent demuxer
  (`Ebml`, `MkvFormat`, `MkvWriter`, `MkvRoundTrip`, `Float64`, `Duration`).
- **The software compositor.** In-place blits of a surface tree against the painter's algorithm on pixels
  (`Pixels`, `Composite`, `CompositeLaws`), what that comes to in bytes (`CompositeBytes`), the stacking of subsurfaces
  (`Subsurface`) and the graph of surfaces that is walked (`SurfaceGraph`).
- **The daemon's concurrent protocols**, as state machines whose steps are lock regions and channel operations:
  session lifecycle (`Lifecycle`, `SessionReuse`, `SessionRuns`), log streaming (`LogStream`), control calls
  (`ControlRpc`, `ControlRuns`), waiting for a window (`Wait`, `WaitResult`) and the connection shared by responses and
  events (`Server`, `Connection`, `Multiplex`).
- **Framing of byte streams**: length-prefixed frames (`Framing`) and bounded lines (`LineReader`).

Code that updates things in place is modelled as classes, arrays and loops proved against functions. In a state
machine, `Enabled` and `Do` give one step, `Legal` the runs and `After` the state they lead to; a theorem about a
reachable state quantifies over all legal runs. `Bytes` holds big-endian numbers and the output sink.

## Findings

Some promises do not hold of the code as it is. For each of them the exact condition is proved and a failing input
is given.

- Frames come back from a recording if and only if the first is not before time 0, none is more than 32768 ms before
  its Cluster, and their sizes fit (`MkvRoundTrip.StreamRoundTrip`, `MkvRoundTrip.OutOfTimeIsLost`).
- A size of 2^56 - 1 is written as the unknown-size pattern (`Ebml.SizeRoundTripExactly`).
- The Duration covers the last frame up to 2^57 ms, and beyond that depending on rounding (`Duration.CoversExactly`,
  `Duration.NotCovered`).
- Drawing a viewport panics exactly when the source pixel looked at starts in the four bytes before the buffer: the
  unsigned sum in the bounds test wraps. A client reaches that with a source rectangle above its buffer, since only a
  negative x is refused (crates/waymux-session/src/compositor.rs:2248-2260). A rectangle that starts in the buffer, with
  products that fit in 32 bits, never does (`CompositeLaws.PanicsExactly`, `CompositeLaws.SourceAboveBufferPanics`,
  `CompositeLaws.OriginsSuffice`, `Composite.CompositeInto`).
- The scaled source coordinate is right exactly when the last product fits in 32 bits (`Composite.NearestExactly`,
  `Composite.ScalingOverflows`).
- The unscaled fast path ignores a source crop, and shows nothing of a buffer whose far edge lies past 2^31
  (`CompositeLaws.CropHonoured`, `CompositeLaws.CropSpills`).
- A fully transparent pixel with colour in it is skipped, where the formula would add that colour
  (`Pixels.BranchesAreSourceOver`, `Pixels.ColourSkipped`).
- `get_subsurface` does not check for a surface that is already a child (`Subsurface.RequestKeepsDistinct`,
  `Subsurface.RegisteredTwice`), nor for one that is the parent or above it: then the walk over the tree does not end
  (`SurfaceGraph.RegistrationAcyclic`, `SurfaceGraph.OwnChild`).
- A log subscriber can get lines twice (`LogStream.AtMostOnce`, `LogStream.DuplicateLine`), and can get an old line
  after newer ones with nothing repeated (`LogStream.OnceInOrder`, `LogStream.LateLine`). Until it lags and is cut
  off, it misses no line from the oldest one in the ring on (`LogStream.NoHole`).
- The retry of a control call can execute it twice: exactly when it has been executed, is in flight or can still be
  written often enough (`ControlRuns.ExecutionsExactly`), for a call that awaits its response on a cached connection
  exactly when the session has executed it or has yet to read it (`ControlRuns.AwaitingRepeats`,
  `ControlRpc.ExecutedTwice`).
- A supervisor removes its entry by name. If the name is in use again by then, it takes out the new session, whose
  kill channel is thereby dropped: the new session is killed and out of the map for good, though no destroy call ever
  had it (`Lifecycle.NoForeignRemoval`, `Lifecycle.ReuseIsUnsafe`, `Lifecycle.ForeignRemovalKills`).
- The supervisor's cleanup and the destroy call remove the directory and the tags by name. A session keeps its own
  exactly when none is started under a name at which another is live or a destroy call under way
  (`SessionReuse.ReuseIsSafe`, `SessionReuse.CrowdingIsUnsafe`, `SessionReuse.RacingCreatesCrowd`).
- Tagging a window emits no event, so that a waiter selecting by tag can block although a window matches
  (`Wait.NeverBlockedStale`, `Wait.BlockedOnTag`).

Where comments and code disagree the model follows the code:

- The comment on the `kill` field (crates/waymux-daemon/src/registry.rs:51-53) calls dropping the sender harmless, but
  the supervisor's `select!` (1395-1402) takes that branch on an error too.
- The comment in crates/waymux-session/src/composite.rs:164-166 says that restacking is not tracked, but
  crates/waymux-session/src/compositor.rs:1162-1244 edits the order that the compositor follows.
- The comment in crates/waymux-session/src/control.rs:65-66 speaks of a fresh connection per call, but
  `session_control` caches one.

Arithmetic wraps where the release build wraps.

## Model

| member | source | states |
|---|---|---|
| `Bytes.BigEndianRoundTrip` | crates/waymux-mux-mkv/src/ebml.rs:105-112 | the bytes of a number that fits read back as that number |
| `Bytes.Sink.WriteAll` | crates/waymux-mux-mkv/src/ebml.rs:130-134 | the contents are overwritten at the position, wherever it is, and the position moves past the bytes |
| `Bytes.WriteOverwrites` | crates/waymux-mux-mkv/src/lib.rs:178-192 | what an output then holds is its contents with those bytes overwritten, extended past the end, a gap before them filled |
| `Bytes.SeekShows` | crates/waymux-mux-mkv/src/lib.rs:184-190 | seeking inside the contents does not change them |
| `Ebml.VintLenFrom` | crates/waymux-mux-mkv/src/ebml.rs:44-55 | the length chosen holds the value without all data bits set, and no shorter one does |
| `Ebml.ComputeVintLen` | crates/waymux-mux-mkv/src/ebml.rs:44-55 | the loop finds exactly that length |
| `Ebml.ComputeUintLen` | crates/waymux-mux-mkv/src/ebml.rs:91-102 | the loop finds the minimal number of bytes |
| `Ebml.WriteVint` | crates/waymux-mux-mkv/src/ebml.rs:32-41 | appends exactly the VINT of the value |
| `Ebml.WriteElementId` | crates/waymux-mux-mkv/src/ebml.rs:61-74 | appends exactly the bytes of the ID |
| `Ebml.WriteElementSize` | crates/waymux-mux-mkv/src/ebml.rs:78-87 | appends the size field, the eight-byte sentinel for the unknown size |
| `Ebml.WriteElementU64` | crates/waymux-mux-mkv/src/ebml.rs:105-112 | appends ID, size and minimal big-endian payload |
| `Ebml.WriteElementBytes` | crates/waymux-mux-mkv/src/ebml.rs:130-134 | appends ID, size and the payload unchanged |
| `Ebml.SizeRoundTrip` | crates/waymux-mux-mkv/src/ebml.rs:32-87 | every size below 2^56 - 1 reads back with the following bytes untouched, in the fewest bytes that are not all ones |
| `Ebml.SizeRoundTripExactly` | crates/waymux-mux-mkv/src/ebml.rs:78-87 | a 64-bit size reads back if and only if it is below 2^56 - 1; that value itself becomes the unknown-size pattern |
| `Ebml.UnknownSizeRead` | crates/waymux-mux-mkv/src/ebml.rs:78-87 | the sentinel reads back as unknown |
| `Ebml.KnownSizeBound` | crates/waymux-mux-mkv/src/ebml.rs:21-41 | no bytes at all read as a known size at or above 2^56 - 1 |
| `Ebml.IdRoundTripExactly` | crates/waymux-mux-mkv/src/ebml.rs:61-74 | a 32-bit ID reads back, with any bytes after it, if and only if it carries the marker of its length |
| `Ebml.UintRoundTrip` | crates/waymux-mux-mkv/src/ebml.rs:91-112 | an unsigned payload reads back and no shorter one would hold it |
| `Float64.RoundingError` | crates/waymux-mux-mkv/src/lib.rs:182 | converting a whole number to binary64 moves it by at most half a unit, and not at all below 2^53 |
| `Float64.RoundTrip` | crates/waymux-mux-mkv/src/lib.rs:186 | the eight bytes of a whole-number double read back as its value |
| `Duration.CoversExactly` | crates/waymux-mux-mkv/src/lib.rs:179-186 | for every time stamp, the Duration bytes read back as the rounded sum, which is past the time stamp if and only if that is below 2^57 ms, or rounds up, or is below 2^58 ms with an odd significand |
| `Duration.NotCovered` | crates/waymux-mux-mkv/src/lib.rs:179-186 | at 2^57 ms the Duration equals the last time stamp |
| `MkvFormat.ReadBackElement` | crates/waymux-mux-mkv/src/ebml.rs:130-134 | the demuxer reads an element back with its payload, whatever follows |
| `MkvFormat.FindField` | crates/waymux-mux-mkv/src/lib.rs:200-282 | looking up a child element finds its payload past the children before it |
| `MkvFormat.ReadBackBlock` | crates/waymux-mux-mkv/src/lib.rs:290-322 | a SimpleBlock body reads back with its 16-bit delta, keyframe flag and payload |
| `MkvFormat.StreamSnoc` | crates/waymux-mux-mkv/src/lib.rs:143-167 | the bytes of a longer run are those of the shorter one followed by the new frame's, from the state reached |
| `MkvWriter.WriteEbmlHeader` | crates/waymux-mux-mkv/src/lib.rs:200-214 | appends exactly the EBML header |
| `MkvWriter.WriteSegmentStart` | crates/waymux-mux-mkv/src/lib.rs:216-219 | appends the Segment with unknown size |
| `MkvWriter.WriteInfo` | crates/waymux-mux-mkv/src/lib.rs:224-247 | appends the Info element, whose tick `MkvRoundTrip.InfoRead` finds to be 1 ms, and returns the absolute offset of the Duration value |
| `MkvWriter.WriteTracks` | crates/waymux-mux-mkv/src/lib.rs:249-282 | appends exactly the Tracks element of the track |
| `MkvWriter.WriteClusterStart` | crates/waymux-mux-mkv/src/lib.rs:284-288 | appends the Cluster head with its timecode clamped at 0 |
| `MkvWriter.WriteSimpleBlock` | crates/waymux-mux-mkv/src/lib.rs:290-322 | appends the block with its delta cut to 16 bits |
| `MkvWriter.Writer.NewForCodec` | crates/waymux-mux-mkv/src/lib.rs:115-134 | at whatever position the output is, the whole header is there and the writer starts with no Cluster open |
| `MkvWriter.Writer.WriteFrame` | crates/waymux-mux-mkv/src/lib.rs:143-167 | the clusters grow by exactly the bytes of the frame in the state before, and the counters advance |
| `MkvWriter.Writer.Finish` | crates/waymux-mux-mkv/src/lib.rs:178-192 | exactly the eight Duration bytes change, for any start offset, any frames and anything behind them; the length stays and the position is at the end |
| `MkvWriter.WriteFrames` | crates/waymux-mux-mkv/src/lib.rs:143-167 | a run of frames yields exactly the specified stream |
| `MkvWriter.Record` | crates/waymux-mux-mkv/src/lib.rs:115-192 | a whole recording overwrites the output with header, Duration and stream, and on an empty output, with track strings below the EBML size limit, demuxes to every header field and to the frames written, at their time stamps in milliseconds, if and only if they are recoverable |
| `MkvRoundTrip.TimeExactly` | crates/waymux-mux-mkv/src/lib.rs:143-167 | a frame's time reads back if and only if it is in time for its Cluster |
| `MkvRoundTrip.DemuxOversized` | crates/waymux-mux-mkv/src/lib.rs:290-322 | a block too large for its size field never reads back with its own payload |
| `MkvRoundTrip.StreamRoundTrip` | crates/waymux-mux-mkv/src/lib.rs:143-167 | for every frame list and every payload, the demuxer returns exactly the frames written if and only if they are recoverable |
| `MkvRoundTrip.HeaderRead` | crates/waymux-mux-mkv/src/lib.rs:200-214 | a demuxer that knows the IDs of the standard reads the EBML and document versions, limits and type from the header |
| `MkvRoundTrip.InfoRead` | crates/waymux-mux-mkv/src/lib.rs:224-247 | it reads a tick of 1,000,000 ns, the application names and the Duration bytes |
| `MkvRoundTrip.EntryRead` | crates/waymux-mux-mkv/src/lib.rs:249-282 | it reads track number, UID, type, lacing, codec strings and size |
| `MkvRoundTrip.TimedExactly` | crates/waymux-mux-mkv/src/lib.rs:143-167 | with that tick the frames play at their time stamps in milliseconds |
| `MkvRoundTrip.PreambleRead` | crates/waymux-mux-mkv/src/lib.rs:200-282 | the demuxer gets every header field, the track and the Duration and goes on with the rest, whatever the rest is |
| `MkvRoundTrip.FileRoundTrip` | crates/waymux-mux-mkv/src/lib.rs:115-167 | header fields, track, Duration bytes and frames, each at 1,000,000 ns times its time stamp, of a whole file read back if and only if the frames are recoverable |
| `MkvRoundTrip.NearlySortedRecovered` | crates/waymux-mux-mkv/src/lib.rs:136-167 | a file reads back whenever the first frame is not before 0 and none is more than 32768 ms before an earlier one |
| `MkvRoundTrip.OutOfTimeIsLost` | crates/waymux-mux-mkv/src/lib.rs:143-167 | neither condition can be dropped |
| `MkvRoundTrip.ClusterInvariant` | crates/waymux-mux-mkv/src/lib.rs:143-167 | in a non-decreasing run a Cluster starts exactly at the first frame, after more than 1000 ms, or at a keyframe after more than 50 ms; every delta is 0 to 1000 and bases strictly increase |
| `MkvRoundTrip.PatchChangesOnlyDuration` | crates/waymux-mux-mkv/src/lib.rs:178-192 | demuxing before and after the patch differs in the Duration alone, whatever the frames |
| `MkvRoundTrip.RecordingReadBack` | crates/waymux-mux-mkv/src/lib.rs:115-192 | header, any eight Duration bytes and stream read back so if and only if the frames are recoverable |
| `MkvRoundTrip.DurationCovers` | crates/waymux-mux-mkv/src/lib.rs:178-192 | the length of the movie, in nanoseconds, is past every frame of a non-decreasing run if and only if the last time stamp is covered |
| `MkvRoundTrip.DurationExact` | crates/waymux-mux-mkv/src/lib.rs:178-192 | of a run that ends before 2^53 - 16 ms the movie is exactly 16 ms longer than the last time stamp, or 16 ms if that is negative |
| `Pixels.OverPremultiplied` | crates/waymux-session/src/composite.rs:221-242 | blending keeps premultiplication, never needs its clamp on a premultiplied source, and keeps an opaque pixel opaque |
| `Pixels.BranchesAreSourceOver` | crates/waymux-session/src/composite.rs:221-242 | the three alpha branches equal the one formula if and only if the source is not fully transparent or adds no visible colour |
| `Pixels.ColourSkipped` | crates/waymux-session/src/composite.rs:221-242 | a transparent blue on a clear pixel is skipped where the formula adds it |
| `Composite.BlendPixel` | crates/waymux-session/src/composite.rs:221-242 | the pixel becomes the source over it and no other pixel changes |
| `Composite.BlitOver` | crates/waymux-session/src/composite.rs:185-245 | every canvas pixel becomes the buffer's pixel there over it, at every 32-bit offset and clip; nothing is drawn if the far edge does not fit |
| `Composite.FaultsExactly` | crates/waymux-session/src/composite.rs:283-291 | the unsigned bounds test passes on bytes that are not there if and only if the index lies in the four bytes before the buffer |
| `Composite.BlitViewport` | crates/waymux-session/src/composite.rs:250-310 | it panics if and only if the index of a canvas pixel faults so, and otherwise every canvas pixel becomes the nearest source pixel over it |
| `Composite.NearestExactly` | crates/waymux-session/src/composite.rs:271-280 | the source coordinate is the exact one for every destination coordinate if and only if the last product fits in 32 bits |
| `Composite.Truncates` | crates/waymux-session/src/composite.rs:271-280 | a product that wrapped to a negative number is divided towards zero |
| `Composite.ScalingOverflows` | crates/waymux-session/src/composite.rs:271-280 | at a product of 2^31 it comes out negative |
| `Composite.NearestInside` | crates/waymux-session/src/composite.rs:271-287 | with products that fit, the sampled coordinate lies in the source rectangle and never steps backwards |
| `Composite.DrawOwn` | crates/waymux-session/src/composite.rs:130-163 | a surface's own buffer is drawn by the fast path or the scaling blit, with or without a viewport, or not at all; it panics if and only if the scaling blit does |
| `Composite.CompositeInto` | crates/waymux-session/src/composite.rs:122-179 | drawing a tree in place panics if and only if a layer off the fast path faults at a canvas pixel, and otherwise equals folding source-over, in pre-order, over the surfaces covering each pixel |
| `Composite.CompositeIntoBuf` | crates/waymux-session/src/composite.rs:48-76 | the frame is that fold on a clear canvas, or a panic exactly when drawing the tree panics; nothing of the reused buffer shows, and it is replaced only when the size changes |
| `CompositeLaws.UncoveredKept` | crates/waymux-session/src/composite.rs:122-179 | a pixel no surface covers stays as it was |
| `CompositeLaws.OpaqueHides` | crates/waymux-session/src/composite.rs:221-242 | what lies below an opaque pixel does not matter |
| `CompositeLaws.PaintPremultiplied` | crates/waymux-session/src/composite.rs:122-245 | painting premultiplied buffers keeps every pixel premultiplied and an opaque one opaque |
| `CompositeLaws.FramePremultiplied` | crates/waymux-session/src/composite.rs:48-76 | the frame of a premultiplied tree is premultiplied everywhere |
| `CompositeLaws.ScaledIsCrop` | crates/waymux-session/src/composite.rs:250-310 | the viewport blit shows the scaled source rectangle of exact arithmetic wherever its products fit |
| `CompositeLaws.BlitsAgree` | crates/waymux-session/src/composite.rs:139-160 | on the whole buffer unscaled the two blits show the same, at every offset and clip, wherever edges and products fit |
| `CompositeLaws.CropHonoured` | crates/waymux-session/src/composite.rs:139-160 | on the fast path a crop is shown as meant if and only if it is the whole buffer and its edges fit; off it always, if its products fit |
| `CompositeLaws.CropSpills` | crates/waymux-session/src/composite.rs:139-160 | a crop at its own size shows a pixel outside it |
| `CompositeLaws.PanicsExactly` | crates/waymux-session/src/composite.rs:283-291 | a layer panics at a pixel if and only if it is off the fast path and the source pixel starts in the four bytes before the buffer |
| `CompositeLaws.OriginsSuffice` | crates/waymux-session/src/composite.rs:250-310 | a tree whose source rectangles start in their buffers, with products that fit, is drawn without a panic on every canvas |
| `CompositeLaws.SourceAboveBufferPanics` | crates/waymux-session/src/compositor.rs:2248-2260 | a 1x1 buffer with a source rectangle one pixel above it panics on every canvas |
| `CompositeLaws.SwapDisjointSiblings` | crates/waymux-session/src/composite.rs:167-178 | swapping adjacent siblings that draw on no common pixel leaves what their parent shows unchanged |
| `CompositeLaws.ReplacedSame` | crates/waymux-session/src/composite.rs:122-179 | replacing a surface at any depth by one that shows the same there leaves the image unchanged |
| `CompositeLaws.SwapDisjointAnywhere` | crates/waymux-session/src/composite.rs:167-178 | so does swapping such siblings at any depth of the tree |
| `CompositeBytes.PlainShows` | crates/waymux-session/src/composite.rs:130-245 | on the fast path a surface shows its buffer: byte for byte where opaque, not at all where the alpha byte is 0, and else each byte plus the byte below times 255 minus alpha over 255, capped at 255; XRGB bytes count as opaque |
| `CompositeBytes.ScaledShows` | crates/waymux-session/src/composite.rs:250-310 | off it, with products that fit, so is each pixel of the destination with the bytes of the source rectangle scaled to it |
| `CompositeBytes.EmptyShows` | crates/waymux-session/src/composite.rs:250-270 | an empty source rectangle or destination shows nothing |
| `CompositeBytes.NothingShows` | crates/waymux-session/src/buffer.rs:40-64 | nor does a surface without a buffer, or with one that is invalid or cannot be mapped |
| `CompositeBytes.LastChildOnTop` | crates/waymux-session/src/composite.rs:167-178 | the last child is painted over all the rest, at its parent's offset plus its own in 32 bits |
| `CompositeBytes.TransparentInvisible` | crates/waymux-session/src/composite.rs:221-242 | where its alpha byte is 0, a surface anywhere in the tree might as well have no buffer |
| `CompositeBytes.OpaqueBytesHide` | crates/waymux-session/src/composite.rs:221-242 | where its bytes are XRGB or its alpha byte is 255, a surface hides everything below it |
| `CompositeBytes.CanvasBytes` | crates/waymux-session/src/composite.rs:221-242 | the canvas holds blue, green, red and alpha of each pixel in this order, row by row |
| `CompositeBytes.CanvasExactly` | crates/waymux-session/src/composite.rs:48-103 | the canvas has the size of the viewport destination, else of the buffer, else of the session, and that of the session if it is less than four pixels either way |
| `Subsurface.Stack.Dispatch` | crates/waymux-session/src/compositor.rs:1140-1244 | each request turns the child list into the one that the lemmas below describe |
| `Subsurface.Stack.Position` | crates/waymux-session/src/compositor.rs:1185-1225 | the loop finds the first child with the id |
| `Subsurface.Stack.Retain` | crates/waymux-session/src/compositor.rs:1176-1184 | the loop removes every child with the id and keeps the order of the others |
| `Subsurface.RequestKeepsDistinct` | crates/waymux-session/src/compositor.rs:1140-1147 | a request keeps child ids distinct if and only if it does not register a surface that is already a child |
| `Subsurface.RegisteredTwice` | crates/waymux-session/src/compositor.rs:1140-1147 | registering a surface twice leaves it in the list twice |
| `SurfaceGraph.RegistrationAcyclic` | crates/waymux-session/src/compositor.rs:1133-1147 | registration keeps the graph of surfaces free of cycles if and only if the parent is not the surface or below it |
| `SurfaceGraph.FewerEdges` | crates/waymux-session/src/compositor.rs:1162-1244 | requests that take children away or reorder them make no cycle |
| `SurfaceGraph.CallsDistinct` | crates/waymux-session/src/composite.rs:167-178 | without a cycle no surface comes twice in a chain of calls |
| `SurfaceGraph.CallsUnending` | crates/waymux-session/src/composite.rs:167-178 | with a cycle below the root there are chains of calls of every length |
| `SurfaceGraph.OwnChild` | crates/waymux-session/src/compositor.rs:1133-1147 | a surface registered as its own child makes one |
| `Subsurface.RunKeepsDistinct` | crates/waymux-session/src/compositor.rs:1140-1244 | over every run the ids stay distinct if and only if no surface is registered while it is a child |
| `Subsurface.OthersKept` | crates/waymux-session/src/compositor.rs:1162-1244 | every request leaves the other children, their offsets and their order as they were |
| `Subsurface.DestroyedGone` | crates/waymux-session/src/compositor.rs:1176-1184 | a destroyed child is gone, and stays away over every run that does not register it again |
| `Subsurface.RegisteredOnTop` | crates/waymux-session/src/compositor.rs:1140-1147 | a registered surface goes on top, at its parent's corner |
| `Subsurface.PositionedInPlace` | crates/waymux-session/src/compositor.rs:1163-1175 | set_position changes the offset of the first child with the id and nothing else |
| `Subsurface.RestackAbsent` | crates/waymux-session/src/compositor.rs:1185-1225 | restacking what is not a child changes nothing |
| `Subsurface.KeepsPosition` | crates/waymux-session/src/compositor.rs:1162-1244 | a child stays, at the position last set, through every run that neither sets it again nor destroys it |
| `Subsurface.PlacedNextTo` | crates/waymux-session/src/compositor.rs:1162-1244 | a restacked child ends directly above or below the named sibling, or at the top or bottom of the stack if that is no other child |
| `Subsurface.MoveDisjoint` | crates/waymux-session/src/compositor.rs:1185-1225 | moving a child any way up or down past siblings it does not overlap leaves the image unchanged |
| `Subsurface.RestackDisjoint` | crates/waymux-session/src/compositor.rs:1185-1225 | so does place_above or place_below, next to any sibling, of a child of any surface in the tree |
| `Subsurface.Stack.PlaceAbove` | crates/waymux-session/src/compositor.rs:1185-1205 | the edit in place gives the specified list |
| `Subsurface.Stack.PlaceBelow` | crates/waymux-session/src/compositor.rs:1206-1225 | the edit in place gives the specified list |
| `LineReader.SegmentsJoin` | crates/waymux-mcp/src/server.rs:172-201 | splitting at newlines loses and shares no byte |
| `LineReader.Input.ReadLineBounded` | crates/waymux-mcp/src/server.rs:172-201 | one call yields the next segment, or TooLong for one over the cap, and leaves the stream just after its newline |
| `LineReader.Input.DrainLine` | crates/waymux-mcp/src/server.rs:172-201 | the rest of an over-long line is skipped up to its newline and no further |
| `LineReader.AnsweredByItsId` | crates/waymux-mcp/src/server.rs:86-153 | a message is answered if and only if it has an id, under that id, and a tool runs only for a known name with usable arguments |
| `LineReader.OneReplyEach` | crates/waymux-mcp/src/server.rs:205-245 | there is one reply for each non-blank line that is too long, unparsable or carries an id |
| `LineReader.ReplyIsProper` | crates/waymux-mcp/src/server.rs:86-153 | the reply to a line is an error -32700 without an id if it is over 8 MiB or unparsable; else, under its id, the result of its method, or -32600 without a method, -32601 for an unknown one, -32602 for a call that names no known tool or whose arguments are no object |
| `LineReader.ReplyAt` | crates/waymux-mcp/src/server.rs:205-245 | the reply to the i-th segment comes after as many as there are segments to be answered before it, and is proper |
| `LineReader.Serve` | crates/waymux-mcp/src/server.rs:205-245 | over any byte stream the loop ends and writes exactly the replies to its segments, in order |
| `LineReader.Answer` | crates/waymux-mcp/src/server.rs:205-245 | one line gets the reply of its segment |
| `Framing.EncodeFrame` | crates/waymux-protocol/src/codec.rs:29-43 | appends one frame, or fails and leaves the buffer exactly as it was; it fails on an encoder error and on a payload over 20 MiB, whose size it reports |
| `Framing.DecodesExactlyFrames` | crates/waymux-protocol/src/codec.rs:46-64 | the payload is decoded if and only if the bytes are one whole frame within the limit |
| `Framing.DecodeEncoded` | crates/waymux-protocol/src/codec.rs:29-64 | what the encoder accepts decodes to the same message |
| `Framing.FrameLength` | crates/waymux-protocol/src/codec.rs:29-43 | a frame starts with the four bytes of its payload's length, the most significant first |
| `Framing.DecodeExactly` | crates/waymux-protocol/src/codec.rs:46-64 | fewer than four bytes are truncated, a length over 20 MiB is refused, any other that is not that of the rest is truncated, and then the decoder decides |
| `Framing.Socket.ReadFrame` | crates/waymux-daemon/src/server.rs:728-745 | reads the next frame, telling a clean close from a truncated or oversized frame |
| `Framing.Socket.ReadMessages` | crates/waymux-daemon/src/server.rs:141-153 | the loop takes exactly the messages up to the close, an error or a frame that does not decode |
| `Framing.WireRoundTrip` | crates/waymux-daemon/src/server.rs:728-745 | frames written one after another are read back as exactly the messages sent; none is refused |
| `Framing.CutStream` | crates/waymux-daemon/src/server.rs:728-745 | wherever the stream is cut, exactly the whole frames arrive, and the end is clean unless inside a payload |
| `Framing.StopsAtUndecodable` | crates/waymux-daemon/src/server.rs:141-153 | the messages before a frame that does not decode arrive, and reading ends there without an error |
| `Framing.StopsAtOversized` | crates/waymux-daemon/src/server.rs:728-745 | the messages before a length over 20 MiB arrive, and reading ends there with one |
| `Server.HandleHelloGate` | crates/waymux-daemon/src/server.rs:180-209 | the gate opens for a supported version only, and answers under the request's id |
| `Server.Backend.Dispatch` | crates/waymux-daemon/src/server.rs:211-223 | behind the gate a call reaches the sessions once, with its events and its result, and a second hello does not |
| `Server.ReaderTask` | crates/waymux-daemon/src/server.rs:132-178 | the queue is what the requests handled put there, events and responses in order, cut off where the writer went; the sessions see exactly the calls behind the gate |
| `Server.OneReplyEach` | crates/waymux-daemon/src/server.rs:132-178 | whatever events come between, there is one response per request, in request order, with its id |
| `Server.HandledExactly` | crates/waymux-daemon/src/server.rs:154-209 | before a hello of version 1 to 4 such a hello gets the welcome with version 4, another a version error and a call a demand for hello; after it a hello gets an error and a call what the handler gives, told the calls so far |
| `Server.ReachingExactly` | crates/waymux-daemon/src/server.rs:154-178 | what the sessions see are the calls after the first such hello, in their order |
| `Server.NothingBeforeHello` | crates/waymux-daemon/src/server.rs:154-209 | whatever reaches a session came after a hello of version 1 to 4 |
| `Server.CallsReachSessions` | crates/waymux-daemon/src/server.rs:154-209 | every call after such a hello does |
| `Connection.NextId` | crates/waymux-cli/src/connection.rs:70-71 | ids stay between 1 and 2^32 - 1, so that none is the 0 of events, and neighbours differ |
| `Connection.Connection.ReadRawFrame` | crates/waymux-cli/src/connection.rs:46-51 | returns the oldest frame not yet returned, queued ones first |
| `Connection.Connection.ReadSocketFrame` | crates/waymux-cli/src/connection.rs:53-67 | takes the next frame off the socket and touches nothing else |
| `Connection.Connection.Request` | crates/waymux-cli/src/connection.rs:69-97 | returns the first response with its id; all frames before it are queued in order, the rest stay on the socket; a request that fails to encode or be written uses up its id alone |
| `Multiplex.EventsInOrder` | crates/waymux-cli/src/connection.rs:46-97 | in every run, frames returned, then queued, then on the wire are all the events sent, once and in order |
| `Multiplex.OwnReply` | crates/waymux-cli/src/connection.rs:69-97 | in every run the k-th request has the id 1 + k mod (2^32 - 1) and is answered by the response to it, even after ids come round again |
| `Multiplex.IdsDistinct` | crates/waymux-cli/src/connection.rs:70-71 | requests less than 2^32 - 1 apart have different ids |
| `Multiplex.OnlyItsIdEnds` | crates/waymux-cli/src/connection.rs:79-95 | in whatever state, only a response with the id of the request under way ends it, and any other frame is queued last |
| `LogStream.Always` | crates/waymux-daemon/src/registry.rs:1693-1707 | in every run the ring is the newest 1024 lines, a line is pushed before it is broadcast, and the replay follows the subscription |
| `LogStream.DeliveredRanges` | crates/waymux-daemon/src/server.rs:282-329 | what a subscriber has of each drainer is a range from the ring followed by a live range that starts no later than the first ends |
| `LogStream.MarksInRun` | crates/waymux-daemon/src/server.rs:282-329 | in the run the live range starts at the lines broadcast when the subscriber subscribed, and the first range is of the 1024 newest lines pushed when it replayed |
| `LogStream.ForwardDelivers` | crates/waymux-daemon/src/server.rs:282-329 | each recv delivers the next event, unless the forwarder is more than 1024 events behind: then it stops |
| `LogStream.NoHole` | crates/waymux-daemon/src/server.rs:282-329 | from the oldest line in the ring at replay on, no line is missing up to the last pushed by then or forwarded since |
| `LogStream.OneRun` | crates/waymux-daemon/src/server.rs:282-329 | what is delivered is one contiguous run from the oldest line in the ring if and only if nothing is forwarded yet or all lines pushed by the replay were broadcast by the subscription |
| `LogStream.OnceInOrder` | crates/waymux-daemon/src/server.rs:282-329 | each line comes at most once and in order if and only if that holds or the drainer had no line in the ring at replay |
| `LogStream.AtMostOnce` | crates/waymux-daemon/src/server.rs:282-329 | no line comes twice if and only if that holds or all lines forwarded had left the ring by the replay |
| `LogStream.LateLine` | crates/waymux-daemon/src/server.rs:282-329 | an old line can come after newer ones with nothing repeated |
| `LogStream.DuplicateLine` | crates/waymux-daemon/src/registry.rs:1693-1707 | a line pushed but not broadcast at subscription is delivered twice |
| `ControlRpc.Always` | crates/waymux-daemon/src/registry.rs:887-981 | every schedule of callers and failures keeps the slot, answer and count invariants |
| `ControlRpc.NothingLeftOver` | crates/waymux-daemon/src/registry.rs:887-981 | while the mutex is free the cached connection carries no request and no response |
| `ControlRpc.OwnAnswer` | crates/waymux-daemon/src/registry.rs:887-981 | a call that returns a response returns its own, though all carry the same id, and was executed |
| `ControlRpc.ExecutionBound` | crates/waymux-session/src/control.rs:67-80 | a call is executed no more often than written, once, or twice if its cached connection failed after the request was written |
| `ControlRpc.ExactlyOnce` | crates/waymux-daemon/src/registry.rs:937-953 | a call answered without such a failure was written and executed exactly once |
| `ControlRpc.WarmReachable` | crates/waymux-daemon/src/registry.rs:958-981 | one call that goes well leaves its connection cached and quiet |
| `ControlRpc.ExecutedTwice` | crates/waymux-daemon/src/registry.rs:937-981 | the retry can execute a call twice |
| `ControlRpc.Reconnects` | crates/waymux-daemon/src/registry.rs:958-981 | a call without a connection can connect and be answered |
| `ControlRpc.NeverWedged` | crates/waymux-daemon/src/registry.rs:884-981 | after any run there is a way for the next call to be answered |
| `ControlRuns.ExecutionsExactly` | crates/waymux-daemon/src/registry.rs:937-981 | after any run, the executions, requests in flight and writes still possible of a call give exactly the most executions that any continuation reaches |
| `ControlRuns.AtMostTwo` | crates/waymux-daemon/src/registry.rs:937-981 | that is at most two, and two if and only if the call can still come to be executed twice |
| `ControlRuns.AwaitingRepeats` | crates/waymux-daemon/src/registry.rs:937-953 | while a call awaits its response on a cached connection it can come to be executed twice if and only if the session has executed it or has yet to read its request |
| `ControlRuns.AnsweredUnlessFreshFails` | crates/waymux-daemon/src/registry.rs:958-981 | in every continuation in which reconnecting works, fresh connections hold and responses decode, every call that returns returns its own response |
| `ControlRuns.NeverStuck` | crates/waymux-daemon/src/registry.rs:887-981 | a call under way whose fresh connection has not died has a next step that ends it with its response or leaves less to do |
| `ControlRuns.NeverDelayed` | crates/waymux-daemon/src/registry.rs:887-981 | no step of any other party leaves it more to do, and there are at most ten to begin with |
| `ControlRuns.EndsExactly` | crates/waymux-daemon/src/registry.rs:937-981 | in every run the calls end in order, with their own response when it is read, and with an error exactly when it does not decode, connecting fails or a fresh connection does |
| `ControlRuns.CachedExactly` | crates/waymux-daemon/src/registry.rs:937-981 | between calls a connection is cached if and only if a response was read from it, decodable or not, and nothing has failed since; it is that one |
| `ControlRuns.TalliedExactly` | crates/waymux-daemon/src/registry.rs:937-981 | counted from the steps of the run: a call is taken up no more often than written, and written once, or twice if its response failed to come on a cached connection, which happens to it at most once |
| `ControlRuns.ResponseStays` | crates/waymux-session/src/control.rs:67-80 | a response once written stays to be read, even if the handler dies |
| `Lifecycle.Always` | crates/waymux-daemon/src/registry.rs:506-549 | every step of create, destroy and supervisor keeps the balance, ownership and child invariants |
| `Lifecycle.Conservation` | crates/waymux-daemon/src/registry.rs:1386-1457 | per name: usage starts are stops, stops owed and the entry; insertions are SessionDestroyed events and supervisors; insertions are removals and the entry |
| `Lifecycle.OneWinner` | crates/waymux-daemon/src/registry.rs:506-511 | of any number of racing creates at most one inserts, until an entry is removed |
| `Lifecycle.EntrySupervised` | crates/waymux-daemon/src/registry.rs:506-549 | every entry belongs to a session whose own supervisor has yet to do its removal |
| `Lifecycle.ChildAccountedFor` | crates/waymux-daemon/src/registry.rs:403-440 | once a create has returned, its child is dead, or its own supervisor waits for it and it is in the map or its kill is sent or under way |
| `Lifecycle.NoForeignRemoval` | crates/waymux-daemon/src/registry.rs:1406-1413 | if no name is inserted again before its earlier supervisor's removal, each supervisor takes out its own entry or none |
| `Lifecycle.ReuseIsUnsafe` | crates/waymux-daemon/src/registry.rs:1406-1413 | every run that inserts a name too early extends to one in which the wrong entry is taken out |
| `Lifecycle.ForeignRemovalHappens` | crates/waymux-daemon/src/registry.rs:1406-1413 | create, destroy and create again reach that |
| `Lifecycle.ForeignRemovalKills` | crates/waymux-daemon/src/registry.rs:1394-1413 | in every run, the session so taken out had not been killed or destroyed; in every continuation it is killed and out of the map, no destroy call ever has it, and its child is dead or can be shut down |
| `Lifecycle.Creates` | crates/waymux-daemon/src/registry.rs:260-560 | a create that goes well, from any state in which the name is free, inserts and starts exactly its session |
| `SessionRuns.TakenNameRefused` | crates/waymux-daemon/src/registry.rs:285-290 | a create begun while its name is in the map is refused: in every continuation it stays so, no child was ever spawned for it, and directory and entry of the name are never its own |
| `SessionRuns.FreeNameProceeds` | crates/waymux-daemon/src/registry.rs:285-290 | one begun while the name is free goes on to spawn |
| `SessionRuns.InsertedWasReady` | crates/waymux-daemon/src/registry.rs:403-440 | in every run, a session inserted had its child spawned and its ready signal received |
| `SessionRuns.NotShutDownUnasked` | crates/waymux-daemon/src/registry.rs:1386-1402 | in every run, a supervisor whose wait is over had its child exit of its own accord or its kill channel used or dropped |
| `SessionRuns.LeavesNothing` | crates/waymux-daemon/src/registry.rs:1430-1451 | in every run, a session cleaned up has neither a directory nor tags left |
| `SessionRuns.ThreatCarriedOut` | crates/waymux-daemon/src/registry.rs:580-612 | a destroy call about to remove another session's tags does so with its next step |
| `SessionReuse.ReuseIsSafe` | crates/waymux-daemon/src/registry.rs:1430-1451 | if no session is started under a name at which another is live or a destroy call under way, every running session has its sockets and no destroy call removes another's tags |
| `SessionReuse.CrowdingIsUnsafe` | crates/waymux-daemon/src/registry.rs:1430-1451 | every run that starts a session so extends to one in which a session runs without its sockets or is about to lose its tags |
| `SessionReuse.RacingCreatesCrowd` | crates/waymux-daemon/src/registry.rs:285-330 | two creates that both found the name free reach that |
| `Wait.TagFree` | crates/waymux-cli/src/main.rs:1706-1735 | a selector without a tag does not depend on the tags |
| `WaitResult.ResolvePicks` | crates/waymux-cli/src/main.rs:1706-1735 | the window resolved is the one wanted with as many wanted before it as are to be passed over, and there is none if and only if there are too few |
| `WaitResult.FoundIsWanted` | crates/waymux-cli/src/main.rs:1737-1797 | in every run, the window found has the application id, title, process and tag asked for, was in a list of windows the session had and tags the daemon had, and is the one of the number asked for |
| `WaitResult.WaitsOnlyForMore` | crates/waymux-cli/src/main.rs:1737-1797 | in every run, the waiter goes on only if too few windows of its latest list are wanted, a list that the session had |
| `WaitResult.NoMatchMissed` | crates/waymux-cli/src/main.rs:1737-1797 | with nothing in flight and no tag to look for, too few of the present windows are wanted |
| `WaitResult.ListsCounted` | crates/waymux-cli/src/main.rs:1737-1797 | the session is asked once, and once more for each of its events taken, not for other events |
| `Wait.Always` | crates/waymux-cli/src/main.rs:1737-1797 | every interleaving keeps at most one request under way, lists no newer than the windows, and every change covered |
| `Wait.NoLostWakeup` | crates/waymux-cli/src/main.rs:1737-1797 | while the waiter blocks, every change is in its latest list, or its event is to come, queued or on the wire |
| `Wait.NeverBlockedStale` | crates/waymux-cli/src/main.rs:1737-1797 | with nothing in flight the list has the present windows, and none matches unless a tag is selected and the tags have changed |
| `Wait.BlockedOnTag` | crates/waymux-daemon/src/registry.rs:1374-1383 | for every selector with a tag there is a run that blocks with a match and nothing in flight |

## Left out

- NewForCodec: an i/o error ends the recording and is not modelled.
- SeekStart: the gap left by a position past the end is filled at once, not by the next write.
- BlitOver: strides are not negative.
- BlitViewport: source rectangles are integers; fractional ones are truncated before.
- ScaledShows: where the products do not fit in 32 bits, what is shown is the wrapped coordinate's pixel, as `Composite.NearestExactly` and `Composite.BlitViewport` say.
- TransparentInvisible, OpaqueBytesHide: said of surfaces without a viewport; `CompositeBytes.ScaledShows` has the pixels of the others.
- CompositeIntoBuf: a canvas whose stride or height does not fit in 32 bits is one outcome, `TooLarge`; what the code makes of it is not modelled.
- CompositeInto: surfaces form a tree, which `SurfaceGraph` says when registration keeps; every surface has its data; surfaces that vanish while they are drawn, and the locks around them, are not modelled.
- ReaderTask: the handler behind the gate is an arbitrary function of the calls before; the single requests are not modelled. Live events are placed ahead of a response; how they interleave is the subject of `Multiplex`.
- Request: frames are already decoded, and an event never decodes as a response.
- Serve: parsing of JSON and running of tools are arbitrary functions.
- EncodeFrame: MessagePack is an arbitrary encoder; the round trips assume that its decoder inverts it.
- DeliveredRanges: one session's logs and one subscriber; replays of several topics on one connection are not combined.
- OwnAnswer: a response that does not decode is an error of its call; the methods behind the call are not modelled.
- Spawn: making the directory, binding the sockets and starting the child are one step.
- Conservation: usage starts are emitted and inserted under one lock and count as one step. Cancelled calls, daemon shutdown, cgroups, tmpfs mounts and the children of `spawn_child` are not modelled.
- ChildAccountedFor: a child counts as dead once it has been sent SIGKILL.
- NeverWedged: says that there is a way; what every continuation comes to is in `ControlRuns`.
- NoLostWakeup: events are not dropped, and the session changes its windows before it emits the event. A subscriber that lags by more than 1024 events is cut off, which `LogStream` models.
- Always: in `Lifecycle`, `LogStream`, `ControlRpc`, `Wait` and `Multiplex` the shared state is a value passed from step to step, because its steps interleave; updates in place inside one lock region are not shown.
- Time and liveness: timeouts are steps that may happen at any moment; that something eventually happens is not stated.
- `composite_into_slice` and `topic_matches`: a direct call of `CompositeInto` and a table of topics.
- Vulkan, CUDA, EGL and libav recording, dmabufs, and the rest of the Wayland dispatch.
- The HTTP transport, the viewer, command-line parsing, the tool table, credentials and the Go bridge.
