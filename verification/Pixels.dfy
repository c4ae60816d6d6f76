/** Pixels and the premultiplied source-over operator (crates/waymux-session/src/composite.rs). */
module Pixels {
  import opened Bytes

  /** Four bytes in ARGB8888 memory order. */
  datatype Pixel = Pixel(b: byte, g: byte, r: byte, a: byte)

  const CLEAR := Pixel(0, 0, 0, 0)

  /** `(d * inv) / 255`. */
  function Scale(d: int, inv: int): (c: int) { (d * inv) / 255 }

  /** `(s + (d * inv) / 255).min(255)`. */
  function Mix(s: int, d: int, inv: int): (c: byte)
    requires 0 <= s < 256 && 0 <= d < 256 && 0 <= inv < 256
  {
    ScaleBounds(d, inv);
    if s + Scale(d, inv) < 255 then s + Scale(d, inv) else 255
  }

  lemma {:induction false} ScaleBounds(d: int, inv: int)
    requires 0 <= d < 256 && 0 <= inv < 256
    ensures 0 <= Scale(d, inv) <= inv
    ensures Scale(255, inv) == inv && Scale(d, 255) == d && Scale(d, 0) == 0
  {
    assert 0 <= d * inv <= 255 * inv;
  }

  /** The three alpha branches of both blits. */
  function Over(s: Pixel, d: Pixel): (p: Pixel)
  {
    if s.a == 0xFF then Pixel(s.b, s.g, s.r, 0xFF)
    else if s.a != 0 then
      var inv := 255 - s.a;
      Pixel(Mix(s.b, d.b, inv), Mix(s.g, d.g, inv), Mix(s.r, d.r, inv), Mix(s.a, d.a, inv))
    else d
  }

  /** No colour exceeds alpha, as Wayland promises of wl_shm buffers. */
  predicate Premultiplied(p: Pixel)
  {
    p.b <= p.a && p.g <= p.a && p.r <= p.a
  }

  lemma {:induction false} MixMonotone(s: byte, d: byte, t: byte, e: byte, inv: byte)
    requires s <= t && d <= e
    ensures Mix(s, d, inv) <= Mix(t, e, inv)
  {
    MulMonotone(d, e, inv);
  }

  lemma {:induction false} MulMonotone(x: int, y: int, i: int)
    requires x <= y && i >= 0
    ensures x * i <= y * i
  {
  }

  /** The sums before the `min(255)` of the middle branch. */
  predicate Unclamped(s: Pixel, d: Pixel)
  {
    var inv := 255 - s.a;
    && s.b + Scale(d.b, inv) <= 255 && s.g + Scale(d.g, inv) <= 255
    && s.r + Scale(d.r, inv) <= 255 && s.a + Scale(d.a, inv) <= 255
  }

  /** Source-over keeps premultiplication; its clamp never fires on a premultiplied source; and an opaque
      pixel stays opaque whatever is drawn on it. */
  lemma {:induction false} OverPremultiplied(s: Pixel, d: Pixel)
    requires Premultiplied(s)
    ensures Premultiplied(d) ==> Premultiplied(Over(s, d))
    ensures Unclamped(s, d)
    ensures d.a == 255 ==> Over(s, d).a == 255
  {
    var inv := 255 - s.a;
    ScaleBounds(d.b, inv); ScaleBounds(d.g, inv); ScaleBounds(d.r, inv); ScaleBounds(d.a, inv);
    if Premultiplied(d) {
      MixMonotone(s.b, d.b, s.a, d.a, inv);
      MixMonotone(s.g, d.g, s.a, d.a, inv);
      MixMonotone(s.r, d.r, s.a, d.a, inv);
    }
  }

  /** The textbook operator, without branches. */
  function SourceOver(s: Pixel, d: Pixel): (p: Pixel)
  {
    var inv := 255 - s.a;
    Pixel(Mix(s.b, d.b, inv), Mix(s.g, d.g, inv), Mix(s.r, d.r, inv), Mix(s.a, d.a, inv))
  }

  /** A channel that a fully transparent source would leave as it is. */
  predicate Kept(s: byte, d: byte) { s == 0 || d == 255 }

  /** The branches equal the single formula, except that a fully transparent source with colour in it is
      skipped where the formula would add that colour. */
  lemma {:induction false} BranchesAreSourceOver(s: Pixel, d: Pixel)
    ensures Over(s, d) == SourceOver(s, d) <==> s.a != 0 || (Kept(s.b, d.b) && Kept(s.g, d.g) && Kept(s.r, d.r))
    ensures Premultiplied(s) ==> Over(s, d) == SourceOver(s, d)
  {
    ScaleBounds(d.b, 0); ScaleBounds(d.g, 0); ScaleBounds(d.r, 0); ScaleBounds(d.a, 0);
  }

  /** A fully transparent source with colour in it, on a clear pixel: skipped, where the formula adds it. */
  lemma {:induction false} ColourSkipped()
    ensures var s := Pixel(1, 0, 0, 0); Over(s, CLEAR) == CLEAR && SourceOver(s, CLEAR) == s
  {
  }
}
