/** What the composited image guarantees, for every surface tree and every canvas pixel. */
module CompositeLaws {
  import opened Bytes
  import opened Pixels
  import opened Composite

  // ----- coverage

  /** No layer has a sample at this pixel. */
  ghost predicate Uncovered(ls: seq<Layer>, px: int, py: int)
  {
    forall i :: 0 <= i < |ls| ==> Sample(ls[i], px, py) == None
  }

  /** A pixel that no surface covers keeps what was there. */
  lemma {:induction false} UncoveredKept(ls: seq<Layer>, px: int, py: int, under: Pixel)
    requires Uncovered(ls, px, py)
    ensures Paint(ls, px, py, under) == under
  {
    if ls == [] {
    } else {
      UncoveredKept(ls[..|ls| - 1], px, py, under);
    }
  }

  /** A pixel below an opaque one does not matter: what is on top of an opaque sample decides. */
  lemma {:induction false} OpaqueHides(below: seq<Layer>, l: Layer, above: seq<Layer>, px: int, py: int, under: Pixel)
    requires Sample(l, px, py).Some? && Sample(l, px, py).value.a == 0xFF
    ensures Paint(below + [l] + above, px, py, under) == Paint([l] + above, px, py, CLEAR)
  {
    PaintConcat(below + [l], above, px, py, under);
    PaintConcat(below, [l], px, py, under);
    PaintConcat([l], above, px, py, CLEAR);
    PaintOne([l]);
  }

  // ----- premultiplication

  ghost predicate PremultipliedBuffer(buf: Buffer)
  {
    forall x, y :: Fetch(buf, x, y).Some? ==> Premultiplied(Fetch(buf, x, y).value)
  }

  ghost predicate PremultipliedTree(s: Surface)
    decreases s
  {
    && (s.buffer.Some? && View(s.buffer.value).Some? ==> PremultipliedBuffer(View(s.buffer.value).value))
    && forall i :: 0 <= i < |s.children| ==> PremultipliedTree(s.children[i].surface)
  }

  ghost predicate PremultipliedLayers(ls: seq<Layer>)
  {
    forall i :: 0 <= i < |ls| ==> PremultipliedBuffer(ls[i].buf)
  }

  lemma {:induction false} TreeLayers(s: Surface, x: i32, y: i32)
    requires PremultipliedTree(s)
    ensures PremultipliedLayers(Layers(s, x, y))
    decreases s
  {
    ChildrenLayers(s, |s.children|, x, y);
    assert s.children[..|s.children|] == s.children;
  }

  lemma {:induction false} ChildrenLayers(s: Surface, n: nat, x: i32, y: i32)
    requires PremultipliedTree(s) && n <= |s.children|
    ensures PremultipliedLayers(ChildLayers(s.children[..n], x, y))
    decreases s, n
  {
    if n == 0 {
    } else {
      var c := s.children[n - 1];
      assert s.children[..n][..n - 1] == s.children[..n - 1];
      ChildrenLayers(s, n - 1, x, y);
      TreeLayers(c.surface, Wrap(x + c.x), Wrap(y + c.y));
    }
  }

  /** If every buffer is premultiplied so is every pixel of the image, and a canvas that starts opaque
      stays opaque. */
  lemma {:induction false} PaintPremultiplied(ls: seq<Layer>, px: int, py: int, under: Pixel)
    requires PremultipliedLayers(ls) && Premultiplied(under)
    ensures Premultiplied(Paint(ls, px, py, under))
    ensures under.a == 255 ==> Paint(ls, px, py, under).a == 255
  {
    if ls == [] {
    } else {
      var (l, rest) := (ls[|ls| - 1], ls[..|ls| - 1]);
      PaintPremultiplied(rest, px, py, under);
      if Sample(l, px, py).Some? {
        assert Premultiplied(Sample(l, px, py).value);
        OverPremultiplied(Sample(l, px, py).value, Paint(rest, px, py, under));
      }
    }
  }

  /** The captured frame of a premultiplied tree is premultiplied everywhere. */
  lemma {:induction false} FramePremultiplied(root: Surface, px: int, py: int)
    requires PremultipliedTree(root)
    ensures Premultiplied(Paint(Layers(root, 0, 0), px, py, CLEAR))
  {
    TreeLayers(root, 0, 0);
    PaintPremultiplied(Layers(root, 0, 0), px, py, CLEAR);
  }

  // ----- viewports

  /** Every pixel of the buffer has its bytes. */
  ghost predicate Backed(buf: Buffer)
  {
    forall x, y :: 0 <= x < buf.w && 0 <= y < buf.h ==> Fetch(buf, x, y).Some?
  }

  /** The source rectangle lies in the buffer, as wp_viewport demands. */
  predicate SourceInBuffer(l: Layer)
  {
    && l.src.x >= 0 && l.src.w > 0 && l.src.x + l.src.w <= l.buf.w
    && l.src.y >= 0 && l.src.h > 0 && l.src.y + l.src.h <= l.buf.h
  }

  predicate WholeBuffer(l: Layer) { l.src == Source(0, 0, l.buf.w, l.buf.h) }

  /** What the viewport means: the source rectangle, scaled, in exact arithmetic. */
  function CropSample(l: Layer, px: int, py: int): (r: Option<Pixel>)
  {
    if Scales(l, px, py) then
      Fetch(l.buf, l.src.x + ((px - l.x) * l.src.w) / l.dw, l.src.y + ((py - l.y) * l.src.h) / l.dh)
    else None
  }

  /** The products of the scaling fit in 32 bits. */
  predicate LayerFits(l: Layer) { Fits(l.src.x, l.src.w, l.dw) && Fits(l.src.y, l.src.h, l.dh) }

  /** The far edges of the unscaled buffer fit in 32 bits. */
  predicate EdgesFit(l: Layer) { l.x + l.buf.w < TWO_31 && l.y + l.buf.h < TWO_31 }

  /** The viewport blit shows what the viewport means wherever its products fit. */
  lemma {:induction false} ScaledIsCrop(l: Layer, px: int, py: int)
    requires LayerFits(l)
    ensures ScaledSample(l, px, py) == CropSample(l, px, py)
  {
    if Scales(l, px, py) {
      NearestFits(l.src.x, l.src.w, px - l.x, l.dw);
      NearestFits(l.src.y, l.src.h, py - l.y, l.dh);
    }
  }

  /** On the whole buffer unscaled the fast path shows what the viewport means, at every offset and clip, unless
      the far edge does not fit in 32 bits; and so does the viewport blit, wherever its products fit. */
  lemma {:induction false} BlitsAgree(l: Layer, px: int, py: int)
    requires WholeBuffer(l) && FastPath(l)
    ensures PlainSample(l, px, py) == if EdgesFit(l) then CropSample(l, px, py) else None
    ensures EdgesFit(l) && LayerFits(l) ==> PlainSample(l, px, py) == ScaledSample(l, px, py)
  {
    if Scales(l, px, py) {
      DivExact(px - l.x, l.dw);
      DivExact(py - l.y, l.dh);
    }
    if LayerFits(l) { ScaledIsCrop(l, px, py); }
  }

  lemma {:induction false} DivExact(d: int, n: int)
    requires n > 0
    ensures (d * n) / n == d
  {
    var q := (d * n) / n;
    var k := d - q;
    assert k * n == (d * n) % n;
    assert k >= 1 ==> k * n >= n;
    assert k <= -1 ==> k * n <= -n;
  }

  /** Off the fast path a viewport whose products fit is shown as it is meant; on it, exactly if the source is
      the whole buffer and its far edges fit: the fast path draws the whole buffer, whatever the source size. */
  lemma {:induction false} CropHonoured(l: Layer)
    requires SourceInBuffer(l) && Backed(l.buf) && (FastPath(l) || LayerFits(l))
    ensures (forall px, py :: Sample(l, px, py) == CropSample(l, px, py))
       <==> !FastPath(l) || (WholeBuffer(l) && EdgesFit(l))
  {
    if !FastPath(l) {
      forall px, py ensures Sample(l, px, py) == CropSample(l, px, py) { ScaledIsCrop(l, px, py); }
    } else if WholeBuffer(l) && EdgesFit(l) {
      forall px, py ensures Sample(l, px, py) == CropSample(l, px, py) { BlitsAgree(l, px, py); }
    } else if EdgesFit(l) {
      CropIgnored(l);
    } else {
      NothingDrawn(l);
    }
  }

  /** On the fast path a pixel of the buffer outside the source rectangle is shown. */
  lemma {:induction false} CropIgnored(l: Layer)
    requires SourceInBuffer(l) && Backed(l.buf) && FastPath(l) && !WholeBuffer(l) && EdgesFit(l)
    ensures exists px, py :: Sample(l, px, py) != CropSample(l, px, py)
  {
    var (x, y) := if l.src.w < l.buf.w then (l.src.w, 0) else (0, l.src.h);
    assert Fetch(l.buf, x, y).Some?;
    var (px, py) := (l.x + x, l.y + y);
    assert px - l.x == x && py - l.y == y;
    assert PlainSample(l, px, py) == Fetch(l.buf, x, y);
    assert !Scales(l, px, py);
    assert Sample(l, px, py) != CropSample(l, px, py);
  }

  /** On the fast path nothing of a buffer is shown whose far edge does not fit. */
  lemma {:induction false} NothingDrawn(l: Layer)
    requires SourceInBuffer(l) && Backed(l.buf) && FastPath(l) && !EdgesFit(l)
    ensures exists px, py :: Sample(l, px, py) != CropSample(l, px, py)
  {
    CropCorner(l);
    assert Fetch(l.buf, 0, 0).Some?;
    assert Sample(l, l.x, l.y) == None;
  }

  lemma {:induction false} CropCorner(l: Layer)
    requires l.src.w > 0 && l.src.h > 0 && l.dw > 0 && l.dh > 0
    ensures CropSample(l, l.x, l.y) == Fetch(l.buf, l.src.x, l.src.y)
  {
    ZeroScaled(l.x, l.src.w, l.dw);
    ZeroScaled(l.y, l.src.h, l.dh);
  }

  lemma {:induction false} ZeroScaled(x: int, s: int, n: int)
    requires n > 0
    ensures ((x - x) * s) / n == 0
  {
  }

  /** A 1x1 crop of a 2x1 buffer, drawn at its own size, spills its second pixel. */
  lemma {:induction false} CropSpills()
    ensures var buf := Buffer([1, 2, 3, 255, 4, 5, 6, 255], 2, 1, 8, true);
            var l := Layer(buf, Source(0, 0, 1, 1), 1, 1, 0, 0);
            && SourceInBuffer(l) && FastPath(l)
            && Sample(l, 1, 0) == Some(Pixel(4, 5, 6, 255)) && CropSample(l, 1, 0) == None
  {
  }

  // ----- panics

  lemma {:induction false} IndexBound(buf: Buffer, x: i32, y: i32)
    ensures -0x8000_0000_0000_0000 <= PixelIndex(buf, x, y) < 0x8000_0000_0000_0000
  {
    ProductBound(y, buf.stride);
  }

  /** A layer panics at a pixel exactly if it is off the fast path and the source pixel looked at starts in the
      four bytes before the buffer. */
  lemma {:induction false} PanicsExactly(l: Layer, px: int, py: int)
    ensures LayerFaults(l, px, py)
       <==> && !FastPath(l) && Scales(l, px, py)
            && var i := PixelIndex(l.buf, SourceX(l, px), SourceY(l, py)); -4 <= i < 0 && i + 4 <= |l.buf.bytes|
  {
    if Scales(l, px, py) {
      IndexBound(l.buf, SourceX(l, px), SourceY(l, py));
      FaultsExactly(PixelIndex(l.buf, SourceX(l, px), SourceY(l, py)), |l.buf.bytes|);
    }
  }

  /** A source rectangle that does not start above or left of the buffer, and whose products fit, never does. */
  lemma {:induction false} OriginSuffices(l: Layer, px: int, py: int)
    requires l.src.x >= 0 && l.src.y >= 0 && LayerFits(l)
    ensures !LayerFaults(l, px, py)
  {
    PanicsExactly(l, px, py);
    if Scales(l, px, py) {
      NearestInside(l.src.x, l.src.w, px - l.x, l.dw);
      NearestInside(l.src.y, l.src.h, py - l.y, l.dh);
      NonNegative(SourceY(l, py), l.buf.stride);
    }
  }

  /** So a tree of such viewports is drawn without a panic, on every canvas and at every offset. */
  lemma {:induction false} OriginsSuffice(layers: seq<Layer>, w: nat, h: nat)
    requires forall i :: 0 <= i < |layers| ==>
               FastPath(layers[i]) || (layers[i].src.x >= 0 && layers[i].src.y >= 0 && LayerFits(layers[i]))
    ensures Clean(layers, w, h)
  {
    forall i: nat, x: nat, y: nat | i < |layers| && x < w && y < h ensures !LayerFaults(layers[i], x, y) {
      if !FastPath(layers[i]) { OriginSuffices(layers[i], x, y); }
    }
  }

  const DOT := Buffer([1, 2, 3, 255], 1, 1, 4, true)

  /** A 1x1 buffer with a source rectangle one pixel above it. */
  const ABOVE := Layer(DOT, Source(0, -1, 1, 1), 1, 1, 0, 0)

  lemma {:induction false} NearestFirst(s0: i32, s: i32, x: int, dlen: i32)
    requires dlen > 0
    ensures Nearest(s0, s, x - x, dlen) == s0
  {
    assert (x - x) * s == 0;
  }

  /** The first pixel of a layer looks at the corner of its source rectangle. */
  lemma {:induction false} CornerFaults(l: Layer)
    requires !FastPath(l) && l.src.w > 0 && l.src.h > 0 && l.dw > 0 && l.dh > 0
    requires var i := PixelIndex(l.buf, l.src.x, l.src.y); -4 <= i < 0 && i + 4 <= |l.buf.bytes|
    ensures LayerFaults(l, l.x, l.y)
  {
    NearestFirst(l.src.x, l.src.w, l.x, l.dw);
    NearestFirst(l.src.y, l.src.h, l.y, l.dh);
    PanicsExactly(l, l.x, l.y);
  }

  /** A client can ask for that rectangle: drawing such a surface panics on every canvas. */
  lemma {:induction false} SourceAboveBufferPanics(w: nat, h: nat)
    requires w > 0 && h > 0
    ensures var s := Surface(0, Some(Shm(DOT, true)), Viewport(Some(Source(0, -1, 1, 1)), None), []);
            !Clean(Layers(s, 0, 0), w, h)
  {
    var s := Surface(0, Some(Shm(DOT, true)), Viewport(Some(Source(0, -1, 1, 1)), None), []);
    CornerFaults(ABOVE);
    assert Own(s, 0, 0) == [ABOVE] && ChildLayers(s.children, 0, 0) == [];
    assert Layers(s, 0, 0)[0] == ABOVE;
  }

  // ----- stacking order

  ghost predicate Disjoint(a: seq<Layer>, b: seq<Layer>)
  {
    forall px, py :: Uncovered(a, px, py) || Uncovered(b, px, py)
  }

  lemma {:induction false} PaintCommutes(a: seq<Layer>, b: seq<Layer>, px: int, py: int, under: Pixel)
    requires Disjoint(a, b)
    ensures Paint(a + b, px, py, under) == Paint(b + a, px, py, under)
  {
    PaintConcat(a, b, px, py, under);
    PaintConcat(b, a, px, py, under);
    if Uncovered(a, px, py) {
      UncoveredKept(a, px, py, under);
      UncoveredKept(a, px, py, Paint(b, px, py, under));
    } else {
      UncoveredKept(b, px, py, under);
      UncoveredKept(b, px, py, Paint(a, px, py, under));
    }
  }

  function SwapAt(cs: seq<Child>, i: nat): (r: seq<Child>)
    requires i + 1 < |cs|
    ensures |r| == |cs| && r[i] == cs[i + 1] && r[i + 1] == cs[i]
    ensures forall k :: 0 <= k < |cs| && k != i && k != i + 1 ==> r[k] == cs[k]
  {
    cs[i := cs[i + 1]][i + 1 := cs[i]]
  }

  lemma {:induction false} ChildLayersConcat(a: seq<Child>, b: seq<Child>, x: i32, y: i32)
    ensures ChildLayers(a + b, x, y) == ChildLayers(a, x, y) + ChildLayers(b, x, y)
  {
    if b == [] {
      assert a + b == a;
    } else {
      assert (a + b)[..|a + b| - 1] == a + b[..|b| - 1];
      ChildLayersConcat(a, b[..|b| - 1], x, y);
    }
  }

  lemma {:induction false} TwoChildren(c: Child, d: Child, x: i32, y: i32)
    ensures ChildLayers([c, d], x, y) == LayersOf(c, x, y) + LayersOf(d, x, y)
  {
    assert [c, d][..1] == [c] && [c][..0] == [];
    assert ChildLayers([c], x, y) == [] + LayersOf(c, x, y);
  }

  /** Swapping adjacent siblings that draw on no common pixel leaves the image unchanged. */
  lemma {:induction false} SwapDisjointSiblings(s: Surface, i: nat, x: i32, y: i32, px: int, py: int, under: Pixel)
    requires i + 1 < |s.children|
    requires Disjoint(LayersOf(s.children[i], x, y), LayersOf(s.children[i + 1], x, y))
    ensures Paint(Layers(s, x, y), px, py, under)
          == Paint(Layers(s.(children := SwapAt(s.children, i)), x, y), px, py, under)
  {
    var (cs, c, d) := (s.children, s.children[i], s.children[i + 1]);
    var (front, back) := (cs[..i], cs[i + 2..]);
    assert cs == front + [c, d] + back && SwapAt(cs, i) == front + [d, c] + back;
    assert s == s.(children := front + [c, d] + back);
    PaintChildren(front, [c, d], back, s, x, y, px, py, under);
    PaintChildren(front, [d, c], back, s, x, y, px, py, under);
    TwoChildren(c, d, x, y);
    TwoChildren(d, c, x, y);
    PaintCommutes(LayersOf(c, x, y), LayersOf(d, x, y), px, py,
                  Paint(ChildLayers(front, x, y), px, py, Paint(Own(s, x, y), px, py, under)));
  }

  lemma {:induction false} PaintChildren(a: seq<Child>, b: seq<Child>, c: seq<Child>, s: Surface, x: i32, y: i32,
                                         px: int, py: int, under: Pixel)
    ensures Paint(Layers(s.(children := a + b + c), x, y), px, py, under)
         == Paint(ChildLayers(c, x, y), px, py, Paint(ChildLayers(b, x, y), px, py,
              Paint(ChildLayers(a, x, y), px, py, Paint(Own(s, x, y), px, py, under))))
  {
    var own := Own(s, x, y);
    ChildLayersConcat(a + b, c, x, y);
    ChildLayersConcat(a, b, x, y);
    PaintConcat(own, ChildLayers(a + b + c, x, y), px, py, under);
    PaintConcat(ChildLayers(a + b, x, y), ChildLayers(c, x, y), px, py, Paint(own, px, py, under));
    PaintConcat(ChildLayers(a, x, y), ChildLayers(b, x, y), px, py, Paint(own, px, py, under));
  }

  // ----- anywhere in the tree

  /** A way down the tree, by child indices. */
  predicate ValidPath(s: Surface, path: seq<nat>)
    decreases |path|
  {
    path == [] || (path[0] < |s.children| && ValidPath(s.children[path[0]].surface, path[1..]))
  }

  function SurfaceAt(s: Surface, path: seq<nat>): (t: Surface)
    requires ValidPath(s, path)
    decreases |path|
  {
    if path == [] then s else SurfaceAt(s.children[path[0]].surface, path[1..])
  }

  /** The offset at which the surface at the end of the path is drawn. */
  function OffsetAt(s: Surface, path: seq<nat>, x: i32, y: i32): (r: (i32, i32))
    requires ValidPath(s, path)
    decreases |path|
  {
    if path == [] then (x, y) else
    var c := s.children[path[0]];
    OffsetAt(c.surface, path[1..], Wrap(x + c.x), Wrap(y + c.y))
  }

  function Replaced(s: Surface, path: seq<nat>, t: Surface): (r: Surface)
    requires ValidPath(s, path)
    decreases |path|
  {
    if path == [] then t else
    var (i, c) := (path[0], s.children[path[0]]);
    s.(children := s.children[i := Child(Replaced(c.surface, path[1..], t), c.x, c.y)])
  }

  /** The surfaces show the same at a pixel, on whatever is below. */
  ghost predicate ShowsSame(a: Surface, b: Surface, x: i32, y: i32, px: int, py: int)
  {
    forall under :: Paint(Layers(a, x, y), px, py, under) == Paint(Layers(b, x, y), px, py, under)
  }

  lemma {:induction false} OneChild(c: Child, x: i32, y: i32)
    ensures ChildLayers([c], x, y) == LayersOf(c, x, y)
  {
    assert [c][..0] == [];
    assert ChildLayers([c], x, y) == [] + LayersOf(c, x, y);
  }

  lemma {:induction false} OneChildPainted(a: seq<Child>, c: Child, b: seq<Child>, s: Surface, x: i32, y: i32,
                                           px: int, py: int, under: Pixel)
    ensures Paint(Layers(s.(children := a + [c] + b), x, y), px, py, under)
         == Paint(ChildLayers(b, x, y), px, py, Paint(LayersOf(c, x, y), px, py,
              Paint(ChildLayers(a, x, y), px, py, Paint(Own(s, x, y), px, py, under))))
  {
    OneChild(c, x, y);
    PaintChildren(a, [c], b, s, x, y, px, py, under);
  }

  ghost predicate ChildShowsSame(c: Child, d: Child, x: i32, y: i32, px: int, py: int)
  {
    forall under :: Paint(LayersOf(c, x, y), px, py, under) == Paint(LayersOf(d, x, y), px, py, under)
  }

  lemma {:induction false} ChildSameOn(a: seq<Child>, c: Child, d: Child, b: seq<Child>, s: Surface, x: i32, y: i32,
                                       px: int, py: int, under: Pixel)
    requires ChildShowsSame(c, d, x, y, px, py)
    ensures Paint(Layers(s.(children := a + [c] + b), x, y), px, py, under)
         == Paint(Layers(s.(children := a + [d] + b), x, y), px, py, under)
  {
    OneChildPainted(a, c, b, s, x, y, px, py, under);
    OneChildPainted(a, d, b, s, x, y, px, py, under);
  }

  lemma {:induction false} AroundChild(s: Surface, i: nat, c: Child)
    requires i < |s.children|
    ensures s == s.(children := s.children[..i] + [s.children[i]] + s.children[i + 1..])
    ensures s.(children := s.children[i := c]) == s.(children := s.children[..i] + [c] + s.children[i + 1..])
  {
    assert s.children == s.children[..i] + [s.children[i]] + s.children[i + 1..];
    assert s.children[i := c] == s.children[..i] + [c] + s.children[i + 1..];
  }

  /** A child that shows the same leaves its parent showing the same. */
  lemma {:induction false} ChildSame(s: Surface, i: nat, c: Child, x: i32, y: i32, px: int, py: int)
    requires i < |s.children| && ChildShowsSame(s.children[i], c, x, y, px, py)
    ensures ShowsSame(s, s.(children := s.children[i := c]), x, y, px, py)
  {
    var t := s.(children := s.children[i := c]);
    AroundChild(s, i, c);
    forall under ensures Paint(Layers(s, x, y), px, py, under) == Paint(Layers(t, x, y), px, py, under) {
      ChildSameOn(s.children[..i], s.children[i], c, s.children[i + 1..], s, x, y, px, py, under);
    }
  }

  lemma {:induction false} SurfaceSame(c: Child, t: Surface, x: i32, y: i32, px: int, py: int)
    requires ShowsSame(c.surface, t, Wrap(x + c.x), Wrap(y + c.y), px, py)
    ensures ChildShowsSame(c, Child(t, c.x, c.y), x, y, px, py)
  {
  }

  /** Replacing a surface by one that shows the same there, at any depth, leaves the image unchanged. */
  lemma {:induction false} ReplacedSame(s: Surface, path: seq<nat>, t: Surface, x: i32, y: i32, px: int, py: int)
    requires ValidPath(s, path)
    requires var (ox, oy) := OffsetAt(s, path, x, y); ShowsSame(SurfaceAt(s, path), t, ox, oy, px, py)
    ensures ShowsSame(s, Replaced(s, path, t), x, y, px, py)
    decreases |path|
  {
    if path == [] {
    } else {
      var (i, c) := (path[0], s.children[path[0]]);
      ReplacedSame(c.surface, path[1..], t, Wrap(x + c.x), Wrap(y + c.y), px, py);
      SurfaceSame(c, Replaced(c.surface, path[1..], t), x, y, px, py);
      ChildSame(s, i, Child(Replaced(c.surface, path[1..], t), c.x, c.y), x, y, px, py);
    }
  }

  /** Swapping adjacent siblings that draw on no common pixel, at any depth, leaves the image unchanged. */
  lemma {:induction false} SwapDisjointAnywhere(s: Surface, path: seq<nat>, i: nat, x: i32, y: i32, px: int, py: int)
    requires ValidPath(s, path) && i + 1 < |SurfaceAt(s, path).children|
    requires var (t, o) := (SurfaceAt(s, path), OffsetAt(s, path, x, y));
             Disjoint(LayersOf(t.children[i], o.0, o.1), LayersOf(t.children[i + 1], o.0, o.1))
    ensures var t := SurfaceAt(s, path);
            ShowsSame(s, Replaced(s, path, t.(children := SwapAt(t.children, i))), x, y, px, py)
  {
    var (t, o) := (SurfaceAt(s, path), OffsetAt(s, path, x, y));
    var t' := t.(children := SwapAt(t.children, i));
    forall under ensures Paint(Layers(t, o.0, o.1), px, py, under) == Paint(Layers(t', o.0, o.1), px, py, under) {
      SwapDisjointSiblings(t, i, o.0, o.1, px, py, under);
    }
    ReplacedSame(s, path, t', x, y, px, py);
  }
}
