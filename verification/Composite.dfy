/** Capture-time compositing of a surface tree into one ARGB8888 canvas, in place
    (crates/waymux-session/src/composite.rs, buffer.rs). */
module Composite {
  import opened Bytes
  import opened Pixels

  // ----- machine numbers

  type i32 = x: int | -0x8000_0000 <= x < 0x8000_0000

  const TWO_31: int := 0x8000_0000
  const TWO_32: int := 0x1_0000_0000
  const TWO_64: int := 0x1_0000_0000_0000_0000

  type Stride = x: int | 0 <= x < 0x8000_0000

  /** The bytes of a slice, of which there are fewer than 2^63. */
  type Slice = s: seq<byte> | |s| < 0x8000_0000_0000_0000

  /** A result cut to 32 bits. */
  function Wrap(n: int): (r: i32) { (n + TWO_31) % TWO_32 - TWO_31 }

  /** Division that truncates towards zero. */
  function Quotient(n: int, m: int): (q: int)
    requires m > 0
  {
    if n >= 0 then n / m else -(-n / m)
  }

  /** `as usize` of a sum of products that fits in 64 bits: a negative one wraps. */
  function Unsigned(i: int): (u: int) { if i >= 0 then i else i + TWO_64 }

  /** The test `u + 4 > len` on unsigned numbers, whose sum wraps. */
  predicate PastEnd(u: int, len: nat) { (u + 4) % TWO_64 > len }

  /** The index passes the test although its bytes are not there: reading them panics. */
  predicate Faults(i: int, len: nat) { !PastEnd(Unsigned(i), len) && !(Unsigned(i) + 4 <= len) }

  /** Those are the indices of the four bytes before the buffer. */
  lemma {:induction false} FaultsExactly(i: int, len: nat)
    requires -0x8000_0000_0000_0000 <= i < 0x8000_0000_0000_0000 && len < 0x8000_0000_0000_0000
    ensures Faults(i, len) <==> -4 <= i < 0 && i + 4 <= len
    ensures !PastEnd(Unsigned(i), len) && !Faults(i, len) <==> 0 <= i && i + 4 <= len
  {
  }

  // ----- surfaces

  /** A byte view of a client buffer. */
  datatype Buffer = Buffer(bytes: Slice, w: i32, h: i32, stride: Stride, argb: bool)

  datatype BufferKind =
    | Shm(view: Buffer, mapped: bool)
    | Dmabuf(view: Buffer, mapped: bool)
    | SinglePixel(pixel: Pixel)
    | Invalid

  /** `BufferKind::with_bytes`: none for an invalid or unmappable buffer. */
  function View(k: BufferKind): (r: Option<Buffer>)
  {
    match k
    case Shm(v, mapped) => if mapped then Some(v) else None
    case Dmabuf(v, mapped) => if mapped then Some(v) else None
    case SinglePixel(p) => Some(Buffer([p.b, p.g, p.r, p.a], 1, 1, 4, true))
    case Invalid => None
  }

  datatype Source = Source(x: i32, y: i32, w: i32, h: i32)

  /** wp_viewport state: the source rectangle, in whole buffer pixels, and the destination size. */
  datatype Viewport = Viewport(src: Option<Source>, dst: Option<(i32, i32)>)

  datatype Surface = Surface(id: nat, buffer: Option<BufferKind>, viewport: Viewport, children: seq<Child>)
  datatype Child = Child(surface: Surface, x: i32, y: i32)

  // ----- the painter's algorithm

  /** One buffer, cropped to `src`, scaled to `dw` by `dh`, with its corner at (x, y) of the canvas. */
  datatype Layer = Layer(buf: Buffer, src: Source, dw: i32, dh: i32, x: i32, y: i32)

  predicate FastPath(l: Layer)
  {
    l.src.w == l.dw && l.src.h == l.dh && l.src.x == 0 && l.src.y == 0
  }

  function PixelIndex(buf: Buffer, x: int, y: int): (i: int) { y * buf.stride + x * 4 }

  /** The buffer's pixel at (x, y), if the bytes for it are there. XRGB pixels are opaque. */
  function Fetch(buf: Buffer, x: int, y: int): (r: Option<Pixel>)
  {
    var i := PixelIndex(buf, x, y);
    if 0 <= i && i + 4 <= |buf.bytes| then
      Some(Pixel(buf.bytes[i], buf.bytes[i + 1], buf.bytes[i + 2], if buf.argb then buf.bytes[i + 3] else 0xFF))
    else None
  }

  predicate Inside(x: int, w: int) { 0 <= x < w }

  /** What the fast path shows at canvas pixel (px, py): the whole buffer, unscaled, unless its far edge lies
      past 2^31. */
  function PlainSample(l: Layer, px: int, py: int): (r: Option<Pixel>)
  {
    if Inside(px - l.x, l.buf.w) && Inside(py - l.y, l.buf.h) && l.x + l.buf.w < TWO_31 && l.y + l.buf.h < TWO_31 then
      Fetch(l.buf, px - l.x, py - l.y)
    else None
  }

  /** Nearest-neighbour source coordinate of destination coordinate `d`, in 32 bits. */
  function Nearest(s0: i32, s: i32, d: int, dlen: i32): (r: i32)
    requires dlen > 0
  {
    Wrap(s0 + Quotient(Wrap(d * s), dlen))
  }

  /** The viewport blit looks at a source pixel for canvas pixel (px, py). */
  predicate Scales(l: Layer, px: int, py: int)
  {
    l.src.w > 0 && l.src.h > 0 && Inside(px - l.x, l.dw) && Inside(py - l.y, l.dh)
  }

  function SourceX(l: Layer, px: int): (x: i32)
    requires l.dw > 0
  {
    Nearest(l.src.x, l.src.w, px - l.x, l.dw)
  }

  function SourceY(l: Layer, py: int): (y: i32)
    requires l.dh > 0
  {
    Nearest(l.src.y, l.src.h, py - l.y, l.dh)
  }

  /** What the viewport blit shows: the source rectangle, scaled. */
  function ScaledSample(l: Layer, px: int, py: int): (r: Option<Pixel>)
  {
    if Scales(l, px, py) then Fetch(l.buf, SourceX(l, px), SourceY(l, py)) else None
  }

  /** Where the viewport blit panics. */
  predicate ScaledFaults(l: Layer, px: int, py: int)
  {
    Scales(l, px, py) && Faults(PixelIndex(l.buf, SourceX(l, px), SourceY(l, py)), |l.buf.bytes|)
  }

  predicate LayerFaults(l: Layer, px: int, py: int) { !FastPath(l) && ScaledFaults(l, px, py) }

  /** No layer panics at any pixel of a canvas of this size. */
  ghost predicate Clean(layers: seq<Layer>, w: nat, h: nat)
  {
    forall i: nat, x: nat, y: nat :: i < |layers| && x < w && y < h ==> !LayerFaults(layers[i], x, y)
  }

  lemma {:induction false} CleanConcat(a: seq<Layer>, b: seq<Layer>, w: nat, h: nat)
    ensures Clean(a + b, w, h) <==> Clean(a, w, h) && Clean(b, w, h)
  {
    if Clean(a + b, w, h) {
      forall i: nat, x: nat, y: nat | i < |a| && x < w && y < h ensures !LayerFaults(a[i], x, y) {
        assert (a + b)[i] == a[i];
      }
      forall i: nat, x: nat, y: nat | i < |b| && x < w && y < h ensures !LayerFaults(b[i], x, y) {
        assert (a + b)[|a| + i] == b[i];
      }
    }
  }

  function Sample(l: Layer, px: int, py: int): (r: Option<Pixel>)
  {
    if FastPath(l) then PlainSample(l, px, py) else ScaledSample(l, px, py)
  }

  function Blend(s: Option<Pixel>, d: Pixel): (p: Pixel)
  {
    if s.None? then d else Over(s.value, d)
  }

  /** Source-over of the layers that cover (px, py), bottom to top, on `under`. */
  function Paint(layers: seq<Layer>, px: int, py: int, under: Pixel): (p: Pixel)
  {
    if layers == [] then under
    else Blend(Sample(layers[|layers| - 1], px, py), Paint(layers[..|layers| - 1], px, py, under))
  }

  /** The surface's own layer, if it has a readable buffer. */
  function Own(s: Surface, x: i32, y: i32): (ls: seq<Layer>)
  {
    if s.buffer.None? || View(s.buffer.value).None? then [] else
    var buf := View(s.buffer.value).value;
    var src := if s.viewport.src.Some? then s.viewport.src.value else Source(0, 0, buf.w, buf.h);
    var (dw, dh) := if s.viewport.dst.Some? then s.viewport.dst.value else (src.w, src.h);
    [Layer(buf, src, dw, dh, x, y)]
  }

  /** The whole tree in pre-order, each child at its parent's offset plus its own, in 32 bits. */
  function Layers(s: Surface, x: i32, y: i32): (ls: seq<Layer>)
    decreases s
  {
    Own(s, x, y) + ChildLayers(s.children, x, y)
  }

  function ChildLayers(cs: seq<Child>, x: i32, y: i32): (ls: seq<Layer>)
    decreases cs
  {
    if cs == [] then [] else ChildLayers(cs[..|cs| - 1], x, y) + LayersOf(cs[|cs| - 1], x, y)
  }

  function LayersOf(c: Child, x: i32, y: i32): (ls: seq<Layer>)
    decreases c
  {
    Layers(c.surface, Wrap(x + c.x), Wrap(y + c.y))
  }

  lemma {:induction false} PaintConcat(a: seq<Layer>, b: seq<Layer>, px: int, py: int, under: Pixel)
    ensures Paint(a + b, px, py, under) == Paint(b, px, py, Paint(a, px, py, under))
  {
    if b == [] {
      assert a + b == a;
    } else {
      assert (a + b)[..|a + b| - 1] == a + b[..|b| - 1];
      PaintConcat(a, b[..|b| - 1], px, py, under);
    }
  }

  // ----- the canvas

  /** `dst` is a w by h canvas of four-byte pixels without padding, of sizes that fit in 32 bits. */
  ghost predicate Canvas(dst: array<byte>, w: nat, h: nat)
  {
    dst.Length == h * (w * 4) && w * 4 < TWO_31 && h < TWO_31
  }

  lemma {:induction false} ProductMonotone(a: int, b: int, c: int)
    requires a <= b && c >= 0
    ensures a * c <= b * c
  {
  }

  lemma {:induction false} ProductBound(a: int, b: int)
    requires -0x8000_0000 <= a <= 0x8000_0000 && 0 <= b <= 0x8000_0000
    ensures -0x4000_0000_0000_0000 <= a * b <= 0x4000_0000_0000_0000
  {
    ProductMonotone(a, 0x8000_0000, b);
    ProductMonotone(-0x8000_0000, a, b);
  }

  /** The canvas pixel at (x, y); CLEAR outside the array. */
  ghost function At(dst: array<byte>, w: nat, x: int, y: int): Pixel
    reads dst
  {
    var i := y * (w * 4) + x * 4;
    if 0 <= i && i + 4 <= dst.Length then Pixel(dst[i], dst[i + 1], dst[i + 2], dst[i + 3]) else CLEAR
  }

  lemma {:induction false} InBounds(w: nat, h: nat, x: nat, y: nat)
    requires x < w && y < h
    ensures 0 <= y * (w * 4) + x * 4 && y * (w * 4) + x * 4 + 4 <= h * (w * 4)
  {
    RowsApart(w, y, h);
  }

  lemma {:induction false} RowsApart(w: nat, y: nat, y': nat)
    requires y < y'
    ensures 0 <= y * (w * 4) && y * (w * 4) + w * 4 <= y' * (w * 4)
  {
    assert (y + 1) * (w * 4) <= y' * (w * 4);
  }

  /** Different pixels share no byte. */
  lemma {:induction false} PixelsApart(w: nat, x: nat, y: nat, x': nat, y': nat)
    requires x < w && x' < w && (x != x' || y != y')
    ensures var (i, j) := (y * (w * 4) + x * 4, y' * (w * 4) + x' * 4); i + 4 <= j || j + 4 <= i
  {
    if y < y' { RowsApart(w, y, y'); } else if y' < y { RowsApart(w, y', y); }
  }

  /** The blend at the end of both blits: dst[di..di + 4] := the source pixel over it. */
  method BlendPixel(dst: array<byte>, di: nat, s: Pixel, ghost w: nat, ghost h: nat, ghost x: nat, ghost y: nat)
    requires Canvas(dst, w, h) && x < w && y < h && di == y * (w * 4) + x * 4 && di + 4 <= dst.Length
    modifies dst
    ensures At(dst, w, x, y) == Over(s, old(At(dst, w, x, y)))
    ensures forall xx: nat, yy: nat :: xx < w && yy < h && (xx != x || yy != y) ==>
              At(dst, w, xx, yy) == old(At(dst, w, xx, yy))
  {
    if s.a == 0xFF {
      dst[di], dst[di + 1], dst[di + 2], dst[di + 3] := s.b, s.g, s.r, 0xFF;
    } else if s.a != 0 {
      var inv := 255 - s.a;
      var db, dg, dr, da := dst[di], dst[di + 1], dst[di + 2], dst[di + 3];
      dst[di], dst[di + 1], dst[di + 2], dst[di + 3] :=
        Mix(s.b, db, inv), Mix(s.g, dg, inv), Mix(s.r, dr, inv), Mix(s.a, da, inv);
    }
    forall xx: nat, yy: nat | xx < w && yy < h && (xx != x || yy != y)
      ensures At(dst, w, xx, yy) == old(At(dst, w, xx, yy))
    {
      PixelsApart(w, x, y, xx, yy);
      InBounds(w, h, xx, yy);
    }
  }

  // ----- the blits

  function Max(a: int, b: int): (r: int) { if a > b then a else b }
  function Min(a: int, b: int): (r: int) { if a < b then a else b }

  /** One pixel of `blit_over`. */
  method PlainPixel(dst: array<byte>, dstW: nat, dstH: nat, l: Layer, x: nat, y: nat, sx: int, srcRow: int, dstRow: int)
    requires Canvas(dst, dstW, dstH) && x < dstW && y < dstH
    requires Inside(x - l.x, l.buf.w) && Inside(y - l.y, l.buf.h) && l.x + l.buf.w < TWO_31 && l.y + l.buf.h < TWO_31
    requires sx == x - l.x && srcRow == (y - l.y) * l.buf.stride && dstRow == y * (dstW * 4)
    modifies dst
    ensures At(dst, dstW, x, y) == Blend(PlainSample(l, x, y), old(At(dst, dstW, x, y)))
    ensures forall xx: nat, yy: nat :: xx < dstW && yy < dstH && (xx != x || yy != y) ==>
              At(dst, dstW, xx, yy) == old(At(dst, dstW, xx, yy))
  {
    var src := l.buf.bytes;
    var si, di := srcRow + sx * 4, dstRow + x * 4;
    InBounds(dstW, dstH, x, y);
    NonNegative(y - l.y, l.buf.stride);
    Tests(y - l.y, sx, l.buf, dst.Length, di, dstW, dstH);
    if !(PastEnd(si, |src|) || PastEnd(di, dst.Length)) {
      var p := Pixel(src[si], src[si + 1], src[si + 2], if l.buf.argb then src[si + 3] else 0xFF);
      BlendPixel(dst, di, p, dstW, dstH, x, y);
    }
  }

  /** `blit_over`: clip to the canvas, then blend the whole buffer row by row. */
  method BlitOver(dst: array<byte>, dstW: nat, dstH: nat, l: Layer)
    requires Canvas(dst, dstW, dstH)
    modifies dst
    ensures forall x: nat, y: nat :: x < dstW && y < dstH ==>
              At(dst, dstW, x, y) == Blend(PlainSample(l, x, y), old(At(dst, dstW, x, y)))
  {
    if l.buf.w <= 0 || l.buf.h <= 0 { return; }
    var x0, y0 := Max(l.x, 0), Max(l.y, 0);
    var x1, y1 := Min(Wrap(l.x + l.buf.w), dstW), Min(Wrap(l.y + l.buf.h), dstH);
    WrapSum(l.x, l.buf.w);
    WrapSum(l.y, l.buf.h);
    if x1 <= x0 || y1 <= y0 { return; }
    var y := y0;
    while y < y1
      invariant y0 <= y <= y1
      invariant forall xx: nat, yy: nat :: xx < dstW && yy < dstH ==>
                  At(dst, dstW, xx, yy) ==
                      if yy < y
                      then Blend(PlainSample(l, xx, yy), old(At(dst, dstW, xx, yy)))
                      else old(At(dst, dstW, xx, yy))
    {
      var sy := y - l.y;
      var srcRow, dstRow := sy * l.buf.stride, y * (dstW * 4);
      var x := x0;
      while x < x1
        invariant x0 <= x <= x1
        invariant forall xx: nat, yy: nat :: xx < dstW && yy < dstH ==>
                    At(dst, dstW, xx, yy) ==
                        if yy < y || (yy == y && xx < x)
                        then Blend(PlainSample(l, xx, yy), old(At(dst, dstW, xx, yy)))
                        else old(At(dst, dstW, xx, yy))
      {
        PlainPixel(dst, dstW, dstH, l, x, y, x - l.x, srcRow, dstRow);
        x := x + 1;
      }
      y := y + 1;
    }
  }

  /** The sum of two 32-bit numbers of which the second is positive is right or negative. */
  lemma {:induction false} WrapSum(a: i32, b: i32)
    requires b > 0
    ensures if a + b < TWO_31 then Wrap(a + b) == a + b else Wrap(a + b) < 0
  {
  }

  lemma {:induction false} NonNegative(a: int, b: int)
    requires a >= 0 && b >= 0
    ensures a * b >= 0
  {
  }

  /** What the bounds tests of both blits decide: the canvas index passes, and the source index passes exactly
      when its bytes are there or it faults. */
  lemma {:induction false} Tests(sy: int, sx: int, buf: Buffer, len: nat, di: nat, w: nat, h: nat)
    requires -TWO_31 <= sy < TWO_31 && -TWO_31 <= sx < TWO_31
    requires di + 4 <= len == h * (w * 4) && w * 4 < TWO_31 && h < TWO_31
    ensures !PastEnd(di, len)
    ensures var i := PixelIndex(buf, sx, sy);
            !PastEnd(Unsigned(i), |buf.bytes|) <==> (0 <= i && i + 4 <= |buf.bytes|) || Faults(i, |buf.bytes|)
    ensures Faults(PixelIndex(buf, sx, sy), |buf.bytes|) ==> PixelIndex(buf, sx, sy) < 0
  {
    ProductBound(h, w * 4);
    ProductBound(sy, buf.stride);
    FaultsExactly(PixelIndex(buf, sx, sy), |buf.bytes|);
  }

  /** One pixel of `blit_viewport`; `ok` is false if reading the source panics. */
  method ScalePixel(dst: array<byte>, dstW: nat, dstH: nat, l: Layer, x: nat, y: nat, srcX: i32, srcY: i32)
    returns (ok: bool)
    requires Canvas(dst, dstW, dstH) && x < dstW && y < dstH
    requires Scales(l, x, y) && srcX == SourceX(l, x) && srcY == SourceY(l, y)
    modifies dst
    ensures ok <==> !ScaledFaults(l, x, y)
    ensures ok ==> At(dst, dstW, x, y) == Blend(ScaledSample(l, x, y), old(At(dst, dstW, x, y)))
    ensures forall xx: nat, yy: nat :: xx < dstW && yy < dstH && (xx != x || yy != y) ==>
              At(dst, dstW, xx, yy) == old(At(dst, dstW, xx, yy))
  {
    var src := l.buf.bytes;
    var si, di := Unsigned(PixelIndex(l.buf, srcX, srcY)), y * (dstW * 4) + x * 4;
    InBounds(dstW, dstH, x, y);
    Tests(srcY, srcX, l.buf, dst.Length, di, dstW, dstH);
    if !(PastEnd(si, |src|) || PastEnd(di, dst.Length)) {
      if si + 4 > |src| { return false; }
      var p := Pixel(src[si], src[si + 1], src[si + 2], if l.buf.argb then src[si + 3] else 0xFF);
      BlendPixel(dst, di, p, dstW, dstH, x, y);
    }
    ok := true;
  }

  /** `blit_viewport`: for every destination pixel on the canvas, the nearest source pixel. It panics, which is
      `ok` false, exactly if the index of one of these faults. */
  method BlitViewport(dst: array<byte>, dstW: nat, dstH: nat, l: Layer) returns (ok: bool)
    requires Canvas(dst, dstW, dstH)
    modifies dst
    ensures ok <==> forall x: nat, y: nat :: x < dstW && y < dstH ==> !ScaledFaults(l, x, y)
    ensures ok ==> forall x: nat, y: nat :: x < dstW && y < dstH ==>
              At(dst, dstW, x, y) == Blend(ScaledSample(l, x, y), old(At(dst, dstW, x, y)))
  {
    if l.src.w <= 0 || l.src.h <= 0 || l.dw <= 0 || l.dh <= 0 { return true; }
    var dy := 0;
    while dy < l.dh
      invariant 0 <= dy <= l.dh
      invariant forall xx: nat, yy: nat :: xx < dstW && yy < dstH && yy < l.y + dy ==> !ScaledFaults(l, xx, yy)
      invariant forall xx: nat, yy: nat :: xx < dstW && yy < dstH ==>
                  At(dst, dstW, xx, yy) ==
                      if yy < l.y + dy
                      then Blend(ScaledSample(l, xx, yy), old(At(dst, dstW, xx, yy)))
                      else old(At(dst, dstW, xx, yy))
    {
      var srcY := Nearest(l.src.y, l.src.h, dy, l.dh);
      var y := l.y + dy;
      if 0 <= y < dstH {
        var dx := 0;
        while dx < l.dw
          invariant 0 <= dx <= l.dw
          invariant forall xx: nat, yy: nat :: xx < dstW && yy < dstH && (yy < y || (yy == y && xx < l.x + dx)) ==>
                      !ScaledFaults(l, xx, yy)
          invariant forall xx: nat, yy: nat :: xx < dstW && yy < dstH ==>
                      At(dst, dstW, xx, yy) ==
                          if yy < y || (yy == y && xx < l.x + dx)
                          then Blend(ScaledSample(l, xx, yy), old(At(dst, dstW, xx, yy)))
                          else old(At(dst, dstW, xx, yy))
        {
          var srcX := Nearest(l.src.x, l.src.w, dx, l.dw);
          var x := l.x + dx;
          if 0 <= x < dstW {
            ok := ScalePixel(dst, dstW, dstH, l, x, y, srcX, srcY);
            if !ok { return; }
          }
          dx := dx + 1;
        }
      }
      dy := dy + 1;
    }
    ok := true;
  }

  /** The rectangle ends within 32 bits and so do the products of the scaling. */
  predicate Fits(s0: int, s: int, dlen: int) { s0 + s <= TWO_31 && (dlen - 1) * s < TWO_31 }

  /** The coordinate is the exact one for every destination coordinate if and only if the last product fits. */
  lemma {:induction false} NearestExactly(s0: i32, s: i32, dlen: i32)
    requires s > 0 && dlen > 0 && s0 + s <= TWO_31
    ensures (forall d :: 0 <= d < dlen ==> Nearest(s0, s, d, dlen) == s0 + (d * s) / dlen) <==> Fits(s0, s, dlen)
  {
    if Fits(s0, s, dlen) {
      forall d | 0 <= d < dlen ensures Nearest(s0, s, d, dlen) == s0 + (d * s) / dlen { NearestFits(s0, s, d, dlen); }
    } else {
      NearestOverflows(s0, s, dlen - 1, dlen);
    }
  }

  /** Half way along 65536 pixels scaled to as many, the product is 2^31 and the coordinate comes out negative. */
  lemma {:induction false} ScalingOverflows()
    ensures Nearest(0, 0x1_0000, 0x8000, 0x1_0000) == -0x8000
  {
    assert Wrap(0x8000_0000) == -0x8000_0000;
  }

  lemma {:induction false} NearestFits(s0: i32, s: i32, d: int, dlen: i32)
    requires s > 0 && 0 <= d < dlen && Fits(s0, s, dlen)
    ensures Nearest(s0, s, d, dlen) == s0 + (d * s) / dlen && 0 <= (d * s) / dlen < s
  {
    assert 0 <= d * s <= (dlen - 1) * s;
    assert (dlen - 1) * s == dlen * s - s;
    DivBounds(d * s, s, dlen);
    NothingWraps(s0, s, d * s, dlen);
  }

  lemma {:induction false} NothingWraps(s0: i32, s: i32, n: int, m: i32)
    requires m > 0 && s0 + s <= TWO_31 && 0 <= n < TWO_31 && 0 <= n / m < s
    ensures Wrap(s0 + Quotient(Wrap(n), m)) == s0 + n / m
  {
    assert Wrap(n) == n;
  }

  /** The quotient of the wrapped product is rounded towards zero, also when it wrapped to a negative one. */
  lemma {:induction false} Truncates(n: int, m: int)
    requires m > 0
    ensures var q := Quotient(n, m); if n >= 0 then 0 <= n - q * m < m && q >= 0 else 0 <= q * m - n < m && q <= 0
  {
    var (a, q) := (if n >= 0 then n else -n, Quotient(n, m));
    Euclid(a, m);
    if n < 0 { Negated(a / m, m); }
  }

  lemma {:induction false} Euclid(a: nat, m: int)
    requires m > 0
    ensures 0 <= a - (a / m) * m < m && a / m >= 0
  {
  }

  lemma {:induction false} Negated(q: int, m: int)
    ensures (-q) * m == -(q * m)
  {
  }

  lemma {:induction false} NearestOverflows(s0: i32, s: i32, d: int, dlen: i32)
    requires s > 0 && 0 <= d < dlen && s0 + s <= TWO_31 && d * s >= TWO_31
    ensures Nearest(s0, s, d, dlen) != s0 + (d * s) / dlen
  {
    ProductMonotone(d, dlen - 1, s);
    assert (dlen - 1) * s == dlen * s - s;
    DivBounds(d * s, s, dlen);
    OverflowSeen(s0, s, d * s, dlen);
  }

  lemma {:induction false} OverflowSeen(s0: i32, s: i32, n: int, m: i32)
    requires m > 0 && s0 + s <= TWO_31 && n >= TWO_31 && 0 <= n / m < s
    ensures Wrap(s0 + Quotient(Wrap(n), m)) != s0 + n / m
  {
    WrapLowers(n);
    QuotientLower(Wrap(n), n, m);
    QuotientBounds(Wrap(n), m);
    WrapApart(s0 + n / m, s0 + Quotient(Wrap(n), m));
  }

  lemma {:induction false} WrapLowers(n: int)
    requires n >= TWO_31
    ensures Wrap(n) <= n - TWO_32
  {
  }

  lemma {:induction false} QuotientLower(a: i32, b: int, m: int)
    requires 0 < m < TWO_31 && a <= b - TWO_32
    ensures Quotient(a, m) < b / m
  {
    DivBelow(if a >= 0 then a else 0, b, m);
  }

  lemma {:induction false} DivBelow(a: int, b: int, m: int)
    requires 0 < m && 0 <= a && a + m <= b
    ensures a / m < b / m
  {
    var (qa, qb) := (a / m, b / m);
    assert a == qa * m + a % m && b == qb * m + b % m;
    if qa >= qb { ProductMonotone(qb, qa, m); }
  }

  lemma {:induction false} QuotientBounds(n: i32, m: int)
    requires m > 0
    ensures -TWO_31 <= Quotient(n, m) < TWO_31
  {
  }

  lemma {:induction false} WrapApart(a: int, b: int)
    requires b < a < b + TWO_32 && -TWO_31 <= a < TWO_31
    ensures Wrap(b) != a
  {
  }

  /** Sampling stays in the source rectangle and never steps backwards, if its products fit. */
  lemma {:induction false} NearestInside(s0: i32, s: i32, d: int, dlen: i32)
    requires s > 0 && 0 <= d < dlen && Fits(s0, s, dlen)
    ensures s0 <= Nearest(s0, s, d, dlen) < s0 + s
    ensures forall e :: d <= e < dlen ==> Nearest(s0, s, d, dlen) <= Nearest(s0, s, e, dlen)
  {
    NearestFits(s0, s, d, dlen);
    forall e | d <= e < dlen ensures Nearest(s0, s, d, dlen) <= Nearest(s0, s, e, dlen) {
      NearestForward(s0, s, d, e, dlen);
    }
  }

  lemma {:induction false} NearestForward(s0: i32, s: i32, d: int, e: int, dlen: i32)
    requires s > 0 && 0 <= d <= e < dlen && Fits(s0, s, dlen)
    ensures Nearest(s0, s, d, dlen) <= Nearest(s0, s, e, dlen)
  {
    NearestFits(s0, s, d, dlen);
    NearestFits(s0, s, e, dlen);
    ProductMonotone(d, e, s);
    DivMonotone(d * s, e * s, dlen);
  }

  lemma {:induction false} DivBounds(n: int, q: int, m: int)
    requires m > 0
    ensures 0 <= n < m * q ==> 0 <= n / m < q
  {
  }

  lemma {:induction false} DivMonotone(a: int, b: int, m: int)
    requires m > 0
    ensures a <= b ==> a / m <= b / m
  {
    var qa, qb := a / m, b / m;
    assert a == qa * m + a % m && b == qb * m + b % m;
    if qa > qb { assert qa * m >= (qb + 1) * m == qb * m + m; }
  }

  // ----- the tree

  /** The surface's own buffer; `ok` is false if drawing it panics. */
  method DrawOwn(dst: array<byte>, dstW: nat, dstH: nat, s: Surface, offX: i32, offY: i32) returns (ok: bool)
    requires Canvas(dst, dstW, dstH)
    modifies dst
    ensures ok <==> Clean(Own(s, offX, offY), dstW, dstH)
    ensures ok ==> forall x: nat, y: nat :: x < dstW && y < dstH ==>
              At(dst, dstW, x, y) == Paint(Own(s, offX, offY), x, y, old(At(dst, dstW, x, y)))
  {
    var own := Own(s, offX, offY);
    PaintOne(own);
    ok := true;
    if own != [] {
      var l := own[0];
      CleanOne(l, dstW, dstH);
      if FastPath(l) { BlitOver(dst, dstW, dstH, l); } else { ok := BlitViewport(dst, dstW, dstH, l); }
    }
  }

  lemma {:induction false} CleanOne(l: Layer, w: nat, h: nat)
    ensures Clean([l], w, h) <==> FastPath(l) || forall x: nat, y: nat :: x < w && y < h ==> !ScaledFaults(l, x, y)
  {
    if Clean([l], w, h) && !FastPath(l) {
      forall x: nat, y: nat | x < w && y < h ensures !ScaledFaults(l, x, y) { assert !LayerFaults([l][0], x, y); }
    }
  }

  /** `composite_into`: the surface's own buffer, then its children in order, all in place. It panics exactly if
      a layer off the fast path faults at a pixel of the canvas. */
  method CompositeInto(dst: array<byte>, dstW: nat, dstH: nat, s: Surface, offX: i32, offY: i32) returns (ok: bool)
    requires Canvas(dst, dstW, dstH)
    modifies dst
    ensures ok <==> Clean(Layers(s, offX, offY), dstW, dstH)
    ensures ok ==> forall x: nat, y: nat :: x < dstW && y < dstH ==>
              At(dst, dstW, x, y) == Paint(Layers(s, offX, offY), x, y, old(At(dst, dstW, x, y)))
    decreases s
  {
    ok := DrawOwn(dst, dstW, dstH, s, offX, offY);
    CleanTree(s, offX, offY, dstW, dstH);
    if !ok { return; }
    ghost var below := Own(s, offX, offY);
    assert below + ChildLayers(s.children[..0], offX, offY) == below;
    var i := 0;
    while i < |s.children|
      invariant 0 <= i <= |s.children| && below == Own(s, offX, offY) + ChildLayers(s.children[..i], offX, offY)
      invariant CleanChildren(s.children, i, offX, offY, dstW, dstH)
      invariant forall x: nat, y: nat :: x < dstW && y < dstH ==>
                  At(dst, dstW, x, y) == Paint(below, x, y, old(At(dst, dstW, x, y)))
    {
      var c := s.children[i];
      ok := CompositeChild(dst, dstW, dstH, c, offX, offY);
      CleanNext(s.children, i, offX, offY, dstW, dstH);
      if !ok { return; }
      NextChild(s.children, i, offX, offY, Own(s, offX, offY));
      PaintOnto(below, LayersOf(c, offX, offY));
      below := below + LayersOf(c, offX, offY);
      i := i + 1;
    }
    assert s.children[..i] == s.children;
    ok := true;
  }

  /** One turn of the loop over the children. */
  method CompositeChild(dst: array<byte>, dstW: nat, dstH: nat, c: Child, offX: i32, offY: i32) returns (ok: bool)
    requires Canvas(dst, dstW, dstH)
    modifies dst
    ensures ok <==> Clean(LayersOf(c, offX, offY), dstW, dstH)
    ensures ok ==> forall x: nat, y: nat :: x < dstW && y < dstH ==>
              At(dst, dstW, x, y) == Paint(LayersOf(c, offX, offY), x, y, old(At(dst, dstW, x, y)))
    decreases c
  {
    var x, y := Wrap(offX + c.x), Wrap(offY + c.y);
    assert LayersOf(c, offX, offY) == Layers(c.surface, x, y);
    ok := CompositeInto(dst, dstW, dstH, c.surface, x, y);
  }

  ghost predicate CleanChildren(cs: seq<Child>, n: nat, x: i32, y: i32, w: nat, h: nat)
    requires n <= |cs|
  {
    forall j :: 0 <= j < n ==> Clean(LayersOf(cs[j], x, y), w, h)
  }

  lemma {:induction false} CleanNext(cs: seq<Child>, i: nat, x: i32, y: i32, w: nat, h: nat)
    requires i < |cs|
    ensures Clean(LayersOf(cs[i], x, y), w, h) && CleanChildren(cs, i, x, y, w, h)
          ==> CleanChildren(cs, i + 1, x, y, w, h)
    ensures !Clean(LayersOf(cs[i], x, y), w, h) ==> !CleanChildren(cs, |cs|, x, y, w, h)
  {
  }

  /** A tree is clean exactly if the surface's own layer and every child's tree are. */
  lemma {:induction false} CleanTree(s: Surface, x: i32, y: i32, w: nat, h: nat)
    ensures Clean(Layers(s, x, y), w, h)
       <==> Clean(Own(s, x, y), w, h) && CleanChildren(s.children, |s.children|, x, y, w, h)
  {
    CleanConcat(Own(s, x, y), ChildLayers(s.children, x, y), w, h);
    CleanLayers(s.children, x, y, w, h);
  }

  lemma {:induction false} CleanLayers(cs: seq<Child>, x: i32, y: i32, w: nat, h: nat)
    ensures Clean(ChildLayers(cs, x, y), w, h) <==> CleanChildren(cs, |cs|, x, y, w, h)
  {
    if cs == [] {
    } else {
      var n := |cs| - 1;
      CleanLayers(cs[..n], x, y, w, h);
      CleanConcat(ChildLayers(cs[..n], x, y), LayersOf(cs[n], x, y), w, h);
    }
  }

  lemma {:induction false} PaintOnto(a: seq<Layer>, b: seq<Layer>)
    ensures forall x, y, p :: Paint(a + b, x, y, p) == Paint(b, x, y, Paint(a, x, y, p))
  {
    forall x, y, p ensures Paint(a + b, x, y, p) == Paint(b, x, y, Paint(a, x, y, p)) { PaintConcat(a, b, x, y, p); }
  }

  lemma {:induction false} PaintOne(own: seq<Layer>)
    requires |own| <= 1
    ensures forall x, y, p :: Paint(own, x, y, p) == if own == [] then p else Blend(Sample(own[0], x, y), p)
  {
    forall x, y, p ensures Paint(own, x, y, p) == if own == [] then p else Blend(Sample(own[0], x, y), p) {
      if own != [] { assert own[..0] == []; }
    }
  }

  lemma {:induction false} NextChild(cs: seq<Child>, i: nat, x: i32, y: i32, own: seq<Layer>)
    requires i < |cs|
    ensures own + ChildLayers(cs[..i + 1], x, y) == own + ChildLayers(cs[..i], x, y) + LayersOf(cs[i], x, y)
  {
    assert cs[..i + 1][..i] == cs[..i];
  }

  // ----- the capture entry points

  /** The size of the committed buffer, if it has one. */
  function BufferDims(k: BufferKind): (r: Option<(i32, i32)>)
  {
    match k
    case Shm(v, _) => Some((v.w, v.h))
    case Dmabuf(v, _) => Some((v.w, v.h))
    case SinglePixel(_) => Some((1, 1))
    case Invalid => None
  }

  /** `surface_dims`: viewport destination, else buffer, else fallback. */
  function SurfaceDims(s: Surface, fallback: (nat, nat)): (r: (nat, nat))
  {
    if s.viewport.dst.Some? && s.viewport.dst.value.0 > 0 && s.viewport.dst.value.1 > 0 then
      (s.viewport.dst.value.0, s.viewport.dst.value.1)
    else
      var dims := if s.buffer.None? then None else BufferDims(s.buffer.value);
      if dims.Some? && dims.value.0 > 0 && dims.value.1 > 0 then (dims.value.0, dims.value.1) else fallback
  }

  /** The canvas chosen for a root: its own size, or the session's for a root under four pixels. */
  function CanvasDims(s: Surface, fallback: (nat, nat)): (r: Option<(nat, nat)>)
  {
    var (w, h) := SurfaceDims(s, fallback);
    if w == 0 || h == 0 then None else if w < 4 || h < 4 then Some(fallback) else Some((w, h))
  }

  datatype Outcome =
    | Nothing                                       // no surface size
    | TooLarge                                      // the stride or the height does not fit in 32 bits
    | Panicked
    | Captured(width: nat, height: nat, stride: nat)

  /** `composite_into_buf`: the frame is the painter's algorithm on a clear canvas. Nothing of the reused
      buffer shows through, and it is only replaced when the size changes. It panics exactly if drawing the
      tree does. */
  method CompositeIntoBuf(root: Surface, buf: array<byte>, fallback: (nat, nat))
      returns (frame: array<byte>, outcome: Outcome)
    modifies buf
    ensures outcome.Nothing? <==> CanvasDims(root, fallback).None?
    ensures outcome.Nothing? ==> frame == buf && buf[..] == old(buf[..])
    ensures CanvasDims(root, fallback).Some? ==>
      var (w, h) := CanvasDims(root, fallback).value;
      && (outcome.TooLarge? <==> w * 4 >= TWO_31 || h >= TWO_31)
      && (outcome.Panicked? <==> !outcome.TooLarge? && !Clean(Layers(root, 0, 0), w, h))
      && (outcome.Captured? ==>
            && outcome == Captured(w, h, w * 4) && Canvas(frame, w, h)
            && (frame == buf || (fresh(frame) && buf.Length != h * (w * 4)))
            && forall x: nat, y: nat :: x < w && y < h ==> At(frame, w, x, y) == Paint(Layers(root, 0, 0), x, y, CLEAR))
  {
    var chosen := CanvasDims(root, fallback);
    if chosen.None? { return buf, Nothing; }
    var (w, h) := chosen.value;
    var stride := w * 4;
    if stride >= TWO_31 || h >= TWO_31 { return buf, TooLarge; }
    var needed := h * stride;
    frame := buf;
    if frame.Length != needed { frame := new byte[needed]; }
    forall i | 0 <= i < frame.Length { frame[i] := 0; }
    var ok := CompositeInto(frame, w, h, root, 0, 0);
    outcome := if ok then Captured(w, h, stride) else Panicked;
  }
}
