/** EBML primitives (crates/waymux-mux-mkv/src/ebml.rs) and the readers that undo them,
    the readers following sections 4, 5 and 6 of RFC 8794. */
module Ebml {
  import opened Bytes

  const UNKNOWN_SIZE: nat := 0x01FF_FFFF_FFFF_FFFF
  /** Every size below this one is representable; it is 2^56 - 1. */
  const SIZE_LIMIT: nat := 0x00FF_FFFF_FFFF_FFFF
  const U32: nat := 0x1_0000_0000
  const U64: nat := 0x1_0000_0000_0000_0000
  const UNKNOWN_SIZE_BYTES: seq<byte> := [0x01, 0xFF, 0xFF, 0xFF, 0xFF, 0xFF, 0xFF, 0xFF]

  function Pow128(n: nat): (p: nat)
    ensures p >= 1
  {
    if n == 0 then 1 else 128 * Pow128(n - 1)
  }

  // ----- what the writers emit

  /** The number of bytes of the VINT for `v`, searching upwards from `k`. */
  function VintLenFrom(v: nat, k: nat): (n: nat)
    requires 1 <= k <= 8
    ensures k <= n <= 8
    ensures n < 8 ==> v < Pow128(n) - 1
    ensures forall j :: k <= j < n ==> v >= Pow128(j) - 1
    decreases 8 - k
  {
    if k == 8 || v < Pow128(k) - 1 then k else VintLenFrom(v, k + 1)
  }

  function VintLen(v: nat): (n: nat) { VintLenFrom(v, 1) }

  /** `val | marker` for the marker 2^(7n) of an n-byte VINT. Only a value of 2^56 or more, in the
      8-byte form, can have bits at or above the marker already. */
  function MarkLength(v: nat, n: nat): (r: nat)
  {
    if v < Pow128(n) then v + Pow128(n)
    else if (v / 0x100_0000_0000_0000) % 2 == 1 then v else v + 0x100_0000_0000_0000
  }

  function Vint(v: nat): (s: seq<byte>)
  {
    BigEndian(MarkLength(v, VintLen(v)), VintLen(v))
  }

  function SizeField(size: nat): (s: seq<byte>)
  {
    if size == UNKNOWN_SIZE then UNKNOWN_SIZE_BYTES else Vint(size)
  }

  function IdLen(id: nat): (n: nat)
  {
    if id >= 0x1000_0000 then 4 else if id >= 0x10_0000 then 3 else if id >= 0x4000 then 2 else 1
  }

  function IdField(id: nat): (s: seq<byte>) { BigEndian(id, IdLen(id)) }

  function UintLen(v: nat): (n: nat)
    ensures n >= 1
  {
    if v < 256 then 1 else 1 + UintLen(v / 256)
  }

  function Element(id: nat, payload: seq<byte>): (s: seq<byte>)
  {
    IdField(id) + SizeField(|payload|) + payload
  }

  function UintElement(id: nat, v: nat): (s: seq<byte>)
  {
    Element(id, BigEndian(v, UintLen(v)))
  }

  // ----- readers

  datatype Size = Known(n: nat) | Unknown

  /** Width announced by the first byte of a VINT: one more than its leading zeros; 0 if it has nine. */
  function Width(b: byte): (n: nat)
    ensures n <= 8
  {
    if b >= 128 then 1 else if b >= 64 then 2 else if b >= 32 then 3 else if b >= 16 then 4
    else if b >= 8 then 5 else if b >= 4 then 6 else if b >= 2 then 7 else if b >= 1 then 8 else 0
  }

  /** An element data size and the bytes after it; all data bits set means Unknown. */
  function ReadSize(s: seq<byte>): (r: Option<(Size, seq<byte>)>)
  {
    if |s| == 0 || Width(s[0]) == 0 || |s| < Width(s[0]) then None else
    var n := Width(s[0]);
    var raw := FromBigEndian(s[..n]);
    if raw < Pow128(n) then None else
    Some((if raw == 2 * Pow128(n) - 1 then Unknown else Known(raw - Pow128(n)), s[n..]))
  }

  /** An element ID, its length marker included, and the bytes after it. */
  function ReadId(s: seq<byte>): (r: Option<(nat, seq<byte>)>)
  {
    if |s| == 0 || !(1 <= Width(s[0]) <= 4) || |s| < Width(s[0]) then None else
    Some((FromBigEndian(s[..Width(s[0])]), s[Width(s[0])..]))
  }

  // ----- VINT lemmas

  lemma {:induction false} Powers()
    ensures Pow128(1) == 0x80 && Pow128(2) == 0x4000 && Pow128(3) == 0x20_0000 && Pow128(4) == 0x1000_0000
    ensures Pow128(5) == 0x8_0000_0000 && Pow128(6) == 0x400_0000_0000
    ensures Pow128(7) == 0x2_0000_0000_0000 && Pow128(8) == 0x100_0000_0000_0000
    ensures Pow256(1) == 0x100 && Pow256(2) == 0x1_0000 && Pow256(3) == 0x100_0000 && Pow256(4) == U32
    ensures Pow256(5) == 0x100_0000_0000 && Pow256(6) == 0x1_0000_0000_0000
    ensures Pow256(7) == 0x100_0000_0000_0000 && Pow256(8) == U64
  {
    assert Pow128(3) == 128 * Pow128(2) && Pow128(4) == 128 * Pow128(3) && Pow128(5) == 128 * Pow128(4);
    assert Pow128(6) == 128 * Pow128(5) && Pow128(7) == 128 * Pow128(6) && Pow128(8) == 128 * Pow128(7);
    assert Pow256(3) == 256 * Pow256(2) && Pow256(4) == 256 * Pow256(3) && Pow256(5) == 256 * Pow256(4);
    assert Pow256(6) == 256 * Pow256(5) && Pow256(7) == 256 * Pow256(6) && Pow256(8) == 256 * Pow256(7);
  }

  /** A marked n-byte number announces its own width. */
  lemma {:induction false} MarkedWidth(v: nat, n: nat)
    requires 1 <= n <= 8 && Pow128(n) <= v < 2 * Pow128(n)
    ensures Width(BigEndian(v, n)[0]) == n
    ensures v < Pow256(n)
  {
    Powers();
    assert Pow256(0) == 1;
    var lo := if n == 1 then 128 else if n == 2 then 64 else if n == 3 then 32 else if n == 4 then 16
              else if n == 5 then 8 else if n == 6 then 4 else if n == 7 then 2 else 1;
    LeadingByteBounds(v, n, lo, 2 * lo);
  }

  /** Reading a marked number strips the marker and leaves what follows alone. */
  lemma {:induction false} ReadRaw(b: seq<byte>, v: nat, tail: seq<byte>)
    requires |b| >= 1 && Width(b[0]) == |b| && v < Pow128(|b|) && FromBigEndian(b) == v + Pow128(|b|)
    ensures ReadSize(b + tail) == Some((if v == Pow128(|b|) - 1 then Unknown else Known(v), tail))
  {
    var n, s := |b|, b + tail;
    assert s[..n] == b && s[n..] == tail;
  }

  /** `write_vint` and `write_element_size` are read back exactly up to the limit 2^56 - 2,
      whatever bytes follow, in the fewest bytes whose data bits are not all set. */
  lemma {:induction false} SizeRoundTrip(v: nat, tail: seq<byte>)
    requires v < SIZE_LIMIT
    ensures ReadSize(SizeField(v) + tail) == Some((Known(v), tail))
    ensures Vint(v) == SizeField(v) && 1 <= |Vint(v)| <= 8
    ensures forall k :: 1 <= k < |Vint(v)| ==> v >= Pow128(k) - 1
  {
    Powers();
    var n := VintLen(v);
    assert v < Pow128(n) - 1;
    MarkedWidth(v + Pow128(n), n);
    BigEndianRoundTrip(v + Pow128(n), n);
    ReadRaw(Vint(v), v, tail);
  }

  /** The sentinel is read back as Unknown. */
  lemma {:induction false} UnknownSizeRead(tail: seq<byte>)
    ensures ReadSize(SizeField(UNKNOWN_SIZE) + tail) == Some((Unknown, tail))
  {
    Powers();
    var s := UNKNOWN_SIZE_BYTES + tail;
    assert s[..8] == UNKNOWN_SIZE_BYTES && s[8..] == tail;
    SentinelValue();
  }

  lemma {:induction false} SentinelValue()
    ensures FromBigEndian(UNKNOWN_SIZE_BYTES) == UNKNOWN_SIZE
  {
    var u := UNKNOWN_SIZE_BYTES;
    assert u[..0] == [] && u[..8] == u;
    FromBigEndianSnoc(u, 0); FromBigEndianSnoc(u, 1); FromBigEndianSnoc(u, 2); FromBigEndianSnoc(u, 3);
    FromBigEndianSnoc(u, 4); FromBigEndianSnoc(u, 5); FromBigEndianSnoc(u, 6); FromBigEndianSnoc(u, 7);
  }

  lemma {:induction false} FromBigEndianSnoc(s: seq<byte>, k: nat)
    requires k < |s|
    ensures FromBigEndian(s[..k + 1]) == FromBigEndian(s[..k]) * 256 + s[k]
  {
    assert s[..k + 1][..k] == s[..k];
  }

  /** Whatever is read as a known size is below the limit. */
  lemma {:induction false} KnownSizeBound(s: seq<byte>)
    ensures ReadSize(s).Some? && ReadSize(s).value.0.Known? ==> ReadSize(s).value.0.n < SIZE_LIMIT
  {
    if ReadSize(s).Some? {
      Powers();
      HeadBounds(s[..Width(s[0])]);
    }
  }

  /** The exact range of sizes that survive: no 64-bit size at or above 2^56 - 1 is read back,
      and 2^56 - 1 itself comes out as the unknown-size pattern. */
  lemma {:induction false} SizeRoundTripExactly(v: nat, tail: seq<byte>)
    requires v < U64
    ensures ReadSize(SizeField(v) + tail) == Some((Known(v), tail)) <==> v < SIZE_LIMIT
    ensures v == SIZE_LIMIT ==> SizeField(v) == UNKNOWN_SIZE_BYTES
  {
    if v < SIZE_LIMIT { SizeRoundTrip(v, tail); } else { KnownSizeBound(SizeField(v) + tail); }
    if v == SIZE_LIMIT { LimitCollides(); }
  }

  lemma {:induction false} LimitCollides()
    ensures SizeField(SIZE_LIMIT) == UNKNOWN_SIZE_BYTES
  {
    Powers();
    assert VintLen(SIZE_LIMIT) == 8;
    assert Vint(SIZE_LIMIT) == BigEndian(UNKNOWN_SIZE, 8);
    BigEndianRoundTrip(UNKNOWN_SIZE, 8);
    SentinelValue();
    FromBigEndianInjective(Vint(SIZE_LIMIT), UNKNOWN_SIZE_BYTES);
  }

  // ----- element IDs

  predicate ValidId(id: nat)
  {
    || 0x80 <= id < 0x100
    || 0x4000 <= id < 0x8000
    || 0x20_0000 <= id < 0x40_0000
    || 0x1000_0000 <= id < 0x2000_0000
  }

  lemma {:induction false} ReadIdIsValid(s: seq<byte>)
    ensures ReadId(s).Some? ==> ValidId(ReadId(s).value.0)
  {
    if ReadId(s).Some? {
      Powers();
      var n := Width(s[0]);
      HeadBounds(s[..n]);
    }
  }

  lemma {:induction false} HeadBounds(s: seq<byte>)
    requires |s| >= 1
    ensures var h: int := s[0];
            h * Pow256(|s| - 1) <= FromBigEndian(s) < (h + 1) * Pow256(|s| - 1)
  {
    var n, h: int := |s| - 1, s[0];
    if n == 0 {
      assert s[..0] == [];
    } else {
      var p := Pow256(n - 1);
      HeadBounds(s[..n]);
      assert h * (256 * p) == 256 * (h * p);
      assert (h + 1) * (256 * p) == 256 * ((h + 1) * p);
    }
  }

  /** A 32-bit element ID survives, with anything after it, exactly when it carries the length
      marker of the form it is written in. */
  lemma {:induction false} IdRoundTripExactly(id: nat, tail: seq<byte>)
    requires id < U32
    ensures ReadId(IdField(id) + tail) == Some((id, tail)) <==> ValidId(id)
  {
    if ValidId(id) {
      Powers();
      var n := IdLen(id);
      var b := IdField(id);
      MarkedWidth(id, n);
      BigEndianRoundTrip(id, n);
      assert (b + tail)[..n] == b && (b + tail)[n..] == tail;
    } else {
      ReadIdIsValid(IdField(id) + tail);
    }
  }

  // ----- unsigned integers

  /** The minimal big-endian form holds the value, uses at most 8 bytes for 64 bits, and no
      shorter form would do. */
  lemma {:induction false} UintRoundTrip(v: nat)
    ensures FromBigEndian(BigEndian(v, UintLen(v))) == v
    ensures UintLen(v) > 1 ==> v >= Pow256(UintLen(v) - 1)
    ensures v < U64 ==> UintLen(v) <= 8
  {
    UintBounds(v);
    BigEndianRoundTrip(v, UintLen(v));
    if UintLen(v) > 8 {
      Powers();
      Pow256Monotone(8, UintLen(v) - 1);
    }
  }

  lemma {:induction false} UintBounds(v: nat)
    ensures UintLen(v) > 1 ==> v >= Pow256(UintLen(v) - 1)
    ensures v < Pow256(UintLen(v))
  {
    if v < 256 {
    } else {
      UintBounds(v / 256);
    }
  }

  lemma {:induction false} Pow256Monotone(m: nat, n: nat)
    requires m <= n
    ensures Pow256(m) <= Pow256(n)
  {
    if m == n {
    } else {
      Pow256Monotone(m, n - 1);
    }
  }

  // ----- the writers

  method ComputeVintLen(val: nat) returns (bytes: nat)
    requires val < U64
    ensures bytes == VintLen(val)
  {
    if val == UNKNOWN_SIZE {
      Powers();
      return 8;
    }
    bytes := 1;
    var max := 128 - 1;
    while bytes <= 8
      invariant 1 <= bytes <= 9
      invariant bytes <= 8 ==> max == Pow128(bytes) - 1 && VintLen(val) == VintLenFrom(val, bytes)
      invariant bytes == 9 ==> VintLen(val) == 8
    {
      if val < max { return bytes; }
      bytes := bytes + 1;
      max := (max + 1) * 128 - 1;
    }
    return 8;
  }

  method ComputeUintLen(val: nat) returns (n: nat)
    ensures n == UintLen(val)
  {
    if val == 0 { return 1; }
    n := 0;
    var v := val;
    while v > 0
      invariant v >= 0 && (v == 0 ==> n == UintLen(val))
      invariant v > 0 ==> n + UintLen(v) == UintLen(val)
    {
      n := n + 1;
      v := v / 256;
    }
  }

  method WriteVint(w: Sink, val: nat)
    requires val < U64
    modifies w`head
    ensures w.head == old(w.head) + Vint(val)
  {
    var bytes := ComputeVintLen(val);
    var combined := MarkLength(val, bytes);
    w.WriteAll(BigEndian(combined, bytes));
  }

  lemma {:induction false} ThreeWrites(d: seq<byte>, a: seq<byte>, b: seq<byte>, c: seq<byte>)
    ensures d + a + b + c == d + (a + b + c)
  {
  }

  method WriteElementId(w: Sink, id: nat)
    requires id < U32
    modifies w`head
    ensures w.head == old(w.head) + IdField(id)
  {
    var bytes := if id >= 0x1000_0000 then 4 else if id >= 0x10_0000 then 3 else if id >= 0x4000 then 2 else 1;
    w.WriteAll(BigEndian(id, bytes));
  }

  method WriteElementSize(w: Sink, size: nat)
    requires size < U64
    modifies w`head
    ensures w.head == old(w.head) + SizeField(size)
  {
    if size == UNKNOWN_SIZE {
      w.WriteAll(UNKNOWN_SIZE_BYTES);
    } else {
      WriteVint(w, size);
    }
  }

  /** `write_element_bytes`, and `write_element_str` and `write_element_f64` on the bytes of their value. */
  method WriteElementBytes(w: Sink, id: nat, payload: seq<byte>)
    requires id < U32 && |payload| < U64
    modifies w`head
    ensures w.head == old(w.head) + Element(id, payload)
  {
    ghost var d := w.head;
    WriteElementId(w, id);
    WriteElementSize(w, |payload|);
    w.WriteAll(payload);
    ThreeWrites(d, IdField(id), SizeField(|payload|), payload);
  }

  method WriteElementU64(w: Sink, id: nat, val: nat)
    requires id < U32 && val < U64
    modifies w`head
    ensures w.head == old(w.head) + UintElement(id, val)
  {
    var len := ComputeUintLen(val);
    assert len <= 8 by { UintRoundTrip(val); }
    var raw := BigEndian(val, len);
    ghost var d := w.head;
    WriteElementId(w, id);
    WriteElementSize(w, len);
    w.WriteAll(raw);
    ThreeWrites(d, IdField(id), SizeField(len), raw);
  }
}
