/** The composited image read off the buffers' bytes: what one surface shows at a pixel, how a tree is made of its
    surfaces, and how large the canvas is (crates/waymux-session/src/composite.rs, buffer.rs). */
module CompositeBytes {
  import opened Bytes
  import opened Pixels
  import opened Composite
  import opened CompositeLaws

  // ----- one pixel

  /** One channel of source-over, rounded down and capped. */
  function Channel(s: int, d: int, alpha: int): (c: int)
  {
    if s + (d * (255 - alpha)) / 255 < 255 then s + (d * (255 - alpha)) / 255 else 255
  }

  /** The result has these channels. */
  predicate IsPixel(p: Pixel, b: int, g: int, r: int, a: int) { p.b == b && p.g == g && p.r == r && p.a == a }

  /** `p` is what the four bytes at index i, in the order blue, green, red, alpha, make of `under`; XRGB bytes are
      opaque, and bytes that are not there change nothing. */
  predicate Over4(v: Buffer, i: int, under: Pixel, p: Pixel)
  {
    if i < 0 || i + 4 > |v.bytes| then p == under
    else
      var (b, g, r) := (v.bytes[i], v.bytes[i + 1], v.bytes[i + 2]);
      if !v.argb || v.bytes[i + 3] == 255 then IsPixel(p, b, g, r, 255)
      else
        var a := v.bytes[i + 3];
        if a == 0 then p == under
        else IsPixel(p, Channel(b, under.b, a), Channel(g, under.g, a), Channel(r, under.r, a), Channel(a, under.a, a))
  }

  lemma {:induction false} FetchedOver(v: Buffer, x: int, y: int, under: Pixel)
    ensures Over4(v, y * v.stride + x * 4, under, Blend(Fetch(v, x, y), under))
  {
  }

  // ----- one surface

  /** The buffer of the surface is this one, and readable. */
  predicate Holds(s: Surface, v: Buffer)
  {
    match s.buffer
    case Some(Shm(w, mapped)) => w == v && mapped
    case Some(Dmabuf(w, mapped)) => w == v && mapped
    case Some(SinglePixel(p)) => v == Buffer([p.b, p.g, p.r, p.a], 1, 1, 4, true)
    case _ => false
  }

  function Alone(s: Surface): (t: Surface) { s.(children := []) }

  lemma {:induction false} AloneLayers(s: Surface, x: i32, y: i32)
    ensures Layers(Alone(s), x, y) == Own(s, x, y)
  {
    assert ChildLayers([], x, y) == [];
  }

  lemma {:induction false} AlonePaint(s: Surface, x: i32, y: i32, px: int, py: int, under: Pixel)
    ensures var own := Own(s, x, y);
            Paint(Layers(Alone(s), x, y), px, py, under)
            == if own == [] then under else Blend(Sample(own[0], px, py), under)
  {
    AloneLayers(s, x, y);
    PaintOne(Own(s, x, y));
  }

  /** The surface has this source rectangle and destination size: the whole buffer and the size of the rectangle are
      the defaults. */
  predicate Maps(s: Surface, v: Buffer, src: Source, dw: i32, dh: i32)
  {
    && (if s.viewport.src.Some? then s.viewport.src.value == src else src == Source(0, 0, v.w, v.h))
    && (if s.viewport.dst.Some? then s.viewport.dst.value == (dw, dh) else (src.w, src.h) == (dw, dh))
  }

  lemma {:induction false} OwnIs(s: Surface, v: Buffer, src: Source, dw: i32, dh: i32, x: i32, y: i32)
    requires Holds(s, v) && Maps(s, v, src, dw, dh)
    ensures Own(s, x, y) == [Layer(v, src, dw, dh, x, y)]
  {
  }

  /** Drawn at the size of its source rectangle, from the buffer's corner, a surface shows its buffer pixel for pixel,
      the rectangle notwithstanding, its corner at its offset, and nothing outside, nor anything if the far edge lies
      past 2^31. */
  lemma {:induction false} PlainShows(s: Surface, v: Buffer, sw: i32, sh: i32, x: i32, y: i32, px: int, py: int,
                                      under: Pixel)
    requires Holds(s, v) && Maps(s, v, Source(0, 0, sw, sh), sw, sh)
    ensures var p := Paint(Layers(Alone(s), x, y), px, py, under);
            if x <= px < x + v.w < 0x8000_0000 && y <= py < y + v.h < 0x8000_0000
            then Over4(v, (py - y) * v.stride + (px - x) * 4, under, p)
            else p == under
  {
    AlonePaint(s, x, y, px, py, under);
    OwnIs(s, v, Source(0, 0, sw, sh), sw, sh, x, y);
    FetchedOver(v, px - x, py - y, under);
  }

  /** Otherwise it shows the source rectangle scaled to the destination size. */
  lemma {:induction false} ScaledShows(s: Surface, v: Buffer, src: Source, dw: i32, dh: i32, x: i32, y: i32,
                                       px: int, py: int, under: Pixel)
    requires Holds(s, v) && Maps(s, v, src, dw, dh) && src.w > 0 && src.h > 0 && dw > 0 && dh > 0
    requires src.x != 0 || src.y != 0 || src.w != dw || src.h != dh
    requires src.x + src.w <= 0x8000_0000 && (dw - 1) * src.w < 0x8000_0000
    requires src.y + src.h <= 0x8000_0000 && (dh - 1) * src.h < 0x8000_0000
    ensures var p := Paint(Layers(Alone(s), x, y), px, py, under);
            if x <= px < x + dw && y <= py < y + dh
            then Over4(v, (src.y + ((py - y) * src.h) / dh) * v.stride + (src.x + ((px - x) * src.w) / dw) * 4,
                       under, p)
            else p == under
  {
    AlonePaint(s, x, y, px, py, under);
    OwnIs(s, v, src, dw, dh, x, y);
    CropShows(Layer(v, src, dw, dh, x, y), px, py, under);
  }

  lemma {:induction false} CropShows(l: Layer, px: int, py: int, under: Pixel)
    requires l.src.w > 0 && l.src.h > 0 && l.dw > 0 && l.dh > 0 && !FastPath(l) && LayerFits(l)
    ensures var p := Blend(Sample(l, px, py), under);
            if l.x <= px < l.x + l.dw && l.y <= py < l.y + l.dh
            then Over4(l.buf, (l.src.y + ((py - l.y) * l.src.h) / l.dh) * l.buf.stride
                              + (l.src.x + ((px - l.x) * l.src.w) / l.dw) * 4, under, p)
            else p == under
  {
    ScaledIsCrop(l, px, py);
    if Scales(l, px, py) { CropOver(l, px, py, under); }
  }

  lemma {:induction false} CropOver(l: Layer, px: int, py: int, under: Pixel)
    requires Scales(l, px, py)
    ensures Over4(l.buf, (l.src.y + ((py - l.y) * l.src.h) / l.dh) * l.buf.stride
                         + (l.src.x + ((px - l.x) * l.src.w) / l.dw) * 4, under, Blend(CropSample(l, px, py), under))
  {
    FetchedOver(l.buf, l.src.x + ((px - l.x) * l.src.w) / l.dw, l.src.y + ((py - l.y) * l.src.h) / l.dh, under);
  }

  /** An empty source rectangle or destination shows nothing. */
  lemma {:induction false} EmptyShows(s: Surface, v: Buffer, src: Source, dw: i32, dh: i32, x: i32, y: i32,
                                      px: int, py: int, under: Pixel)
    requires Holds(s, v) && Maps(s, v, src, dw, dh) && (src.w <= 0 || src.h <= 0 || dw <= 0 || dh <= 0)
    requires src.x != 0 || src.y != 0 || src.w != dw || src.h != dh
    ensures Paint(Layers(Alone(s), x, y), px, py, under) == under
  {
    AlonePaint(s, x, y, px, py, under);
    OwnIs(s, v, src, dw, dh, x, y);
  }

  /** A surface without a buffer, or with one that is invalid or cannot be mapped, shows nothing. */
  lemma {:induction false} NothingShows(s: Surface, x: i32, y: i32, px: int, py: int, under: Pixel)
    requires s.buffer.None? || s.buffer.value.Invalid?
             || ((s.buffer.value.Shm? || s.buffer.value.Dmabuf?) && !s.buffer.value.mapped)
    ensures Paint(Layers(Alone(s), x, y), px, py, under) == under
  {
    AlonePaint(s, x, y, px, py, under);
  }

  // ----- the tree

  /** The last child, with all that is its own, is on top of everything else, at its parent's offset plus its own in
      32 bits. With the lemmas on one surface this fixes the image of every tree. */
  lemma {:induction false} LastChildOnTop(s: Surface, x: i32, y: i32, px: int, py: int, under: Pixel)
    requires s.children != []
    ensures var (n, c) := (|s.children| - 1, s.children[|s.children| - 1]);
            var (cx, cy) := ((x + c.x + 0x8000_0000) % 0x1_0000_0000 - 0x8000_0000,
                             (y + c.y + 0x8000_0000) % 0x1_0000_0000 - 0x8000_0000);
            Paint(Layers(s, x, y), px, py, under)
            == Paint(Layers(c.surface, cx, cy), px, py,
                     Paint(Layers(s.(children := s.children[..n]), x, y), px, py, under))
  {
    LastChildPainted(s, x, y, px, py, under);
  }

  lemma {:induction false} LastChildPainted(s: Surface, x: i32, y: i32, px: int, py: int, under: Pixel)
    requires s.children != []
    ensures var (n, c) := (|s.children| - 1, s.children[|s.children| - 1]);
            Paint(Layers(s, x, y), px, py, under)
            == Paint(LayersOf(c, x, y), px, py, Paint(Layers(s.(children := s.children[..n]), x, y), px, py, under))
  {
    var (n, c) := (|s.children| - 1, s.children[|s.children| - 1]);
    var below := Layers(s.(children := s.children[..n]), x, y);
    assert below == Own(s, x, y) + ChildLayers(s.children[..n], x, y);
    Assoc(Own(s, x, y), ChildLayers(s.children[..n], x, y), LayersOf(c, x, y));
    PaintConcat(below, LayersOf(c, x, y), px, py, under);
  }

  /** A surface whose own pixel changes nothing shows what its children show. */
  lemma {:induction false} OwnInvisible(s: Surface, x: i32, y: i32, px: int, py: int)
    requires forall under :: Paint(Layers(Alone(s), x, y), px, py, under) == under
    ensures ShowsSame(s, s.(buffer := None), x, y, px, py)
  {
    var t := s.(buffer := None);
    AloneLayers(s, x, y);
    forall under ensures Paint(Layers(s, x, y), px, py, under) == Paint(Layers(t, x, y), px, py, under) {
      PaintConcat(Own(s, x, y), ChildLayers(s.children, x, y), px, py, under);
      assert Paint(Layers(Alone(s), x, y), px, py, under) == under;
      assert Own(t, x, y) == [] && Layers(t, x, y) == ChildLayers(s.children, x, y);
    }
  }

  /** Where its alpha byte is 0, a surface anywhere in the tree might as well have no buffer. */
  lemma {:induction false} TransparentInvisible(s: Surface, path: seq<nat>, v: Buffer, x: i32, y: i32, px: int, py: int)
    requires ValidPath(s, path) && Holds(SurfaceAt(s, path), v) && v.argb
    requires SurfaceAt(s, path).viewport == Viewport(None, None)
    requires var (ox, oy) := OffsetAt(s, path, x, y);
             var i := (py - oy) * v.stride + (px - ox) * 4;
             && ox + v.w < 0x8000_0000 && oy + v.h < 0x8000_0000
             && (ox <= px < ox + v.w && oy <= py < oy + v.h && 0 <= i && i + 4 <= |v.bytes| ==> v.bytes[i + 3] == 0)
    ensures ShowsSame(s, Replaced(s, path, SurfaceAt(s, path).(buffer := None)), x, y, px, py)
  {
    var (t, (ox, oy)) := (SurfaceAt(s, path), OffsetAt(s, path, x, y));
    forall under ensures Paint(Layers(Alone(t), ox, oy), px, py, under) == under {
      PlainShows(t, v, v.w, v.h, ox, oy, px, py, under);
    }
    OwnInvisible(t, ox, oy, px, py);
    ReplacedSame(s, path, t.(buffer := None), x, y, px, py);
  }

  /** Where its bytes are XRGB, or its alpha byte is 255, a surface hides everything below it. */
  lemma {:induction false} OpaqueBytesHide(s: Surface, v: Buffer, x: i32, y: i32, px: int, py: int, under: Pixel)
    requires Holds(s, v) && s.viewport == Viewport(None, None) && x + v.w < 0x8000_0000 && y + v.h < 0x8000_0000
    requires x <= px < x + v.w && y <= py < y + v.h
    requires var i := (py - y) * v.stride + (px - x) * 4;
             0 <= i && i + 4 <= |v.bytes| && (!v.argb || v.bytes[i + 3] == 255)
    ensures var i := (py - y) * v.stride + (px - x) * 4;
            Paint(Layers(s, x, y), px, py, under)
            == Paint(ChildLayers(s.children, x, y), px, py, Pixel(v.bytes[i], v.bytes[i + 1], v.bytes[i + 2], 255))
  {
    PlainShows(s, v, v.w, v.h, x, y, px, py, under);
    AloneLayers(s, x, y);
    PaintConcat(Own(s, x, y), ChildLayers(s.children, x, y), px, py, under);
  }

  // ----- the canvas

  /** The canvas holds each pixel's blue, green, red and alpha in this order, row by row. */
  lemma {:induction false} CanvasBytes(dst: array<byte>, w: nat, h: nat, x: nat, y: nat)
    requires Canvas(dst, w, h) && x < w && y < h
    ensures var (i, p) := (y * (w * 4) + x * 4, At(dst, w, x, y));
            0 <= i && i + 4 <= dst.Length && IsPixel(p, dst[i], dst[i + 1], dst[i + 2], dst[i + 3])
  {
    InBounds(w, h, x, y);
  }

  /** The size of a surface: a positive viewport destination, else a positive buffer size, else that of the session. */
  predicate Sized(s: Surface, fallback: (nat, nat), w: nat, h: nat)
  {
    if s.viewport.dst.Some? && s.viewport.dst.value.0 > 0 && s.viewport.dst.value.1 > 0
    then s.viewport.dst.value == (w, h)
    else
      match s.buffer
      case Some(Shm(v, _)) => if v.w > 0 && v.h > 0 then w == v.w && h == v.h else fallback == (w, h)
      case Some(Dmabuf(v, _)) => if v.w > 0 && v.h > 0 then w == v.w && h == v.h else fallback == (w, h)
      case Some(SinglePixel(_)) => w == 1 && h == 1
      case _ => fallback == (w, h)
  }

  /** The canvas has that size, or that of the session if it is less than 4 pixels either way; there is none for a
      surface without extent. */
  lemma {:induction false} CanvasExactly(s: Surface, fallback: (nat, nat), w: nat, h: nat)
    requires Sized(s, fallback, w, h)
    ensures CanvasDims(s, fallback)
         == if w == 0 || h == 0 then None else if w < 4 || h < 4 then Some(fallback) else Some((w, h))
  {
  }
}
