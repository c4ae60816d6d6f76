/** The Duration written by `finish` (crates/waymux-mux-mkv/src/lib.rs): the last time stamp, 0 if that is
    negative, converted to binary64, plus 16. */
module Duration {
  import opened Bytes
  import opened Float64

  const FRAME_MS: nat := 16

  /** The largest 64-bit time stamp. */
  const MAX_PTS: nat := 0x7FFF_FFFF_FFFF_FFFF

  function Duration(pts: nat): (d: Double) { Add(FromNat(pts), FRAME_MS) }

  lemma {:induction false} Encodable(pts: nat)
    requires pts <= MAX_PTS
    ensures var d := Duration(pts);
            d.significand <= EXACT_LIMIT && d.shift <= 11 && (d.shift > 0 ==> HIDDEN <= d.significand)
  {
    RoundingError(pts);
    Binades(pts);
    Binades(Value(FromNat(pts)) + FRAME_MS);
    SignificandBounds(Value(FromNat(pts)) + FRAME_MS);
  }

  function DurationBytes(pts: nat): (s: seq<byte>)
    requires pts <= MAX_PTS
    ensures |s| == 8
  {
    Encodable(pts);
    ToBytes(Duration(pts))
  }

  // ----- does it cover the last frame?

  lemma {:induction false} BelowBinade57(pts: nat)
    requires pts < 0x100_0000_0000_0000
    ensures Value(Duration(pts)) > pts
  {
    var v := Value(FromNat(pts));
    RoundingError(pts);
    RoundingError(v + FRAME_MS);
    Binades(pts);
    Binades(v + FRAME_MS);
  }

  lemma {:induction false} Binade57(pts: nat)
    requires 0x100_0000_0000_0000 <= pts < 0x200_0000_0000_0000
    ensures Value(Duration(pts)) > pts
  {
    var m := FromNat(pts).significand;
    RoundingError(pts);
    SignificandBounds(pts);
    Binades(pts);
    if m + 1 < EXACT_LIMIT {
      FromQuotient(m + 1, 4, 0);
    } else if m + 1 == EXACT_LIMIT {
      FromQuotient(HIDDEN, 5, 0);
    } else {
      FromQuotient(HIDDEN, 5, FRAME_MS);
    }
  }

  lemma {:induction false} Binade58(pts: nat)
    requires 0x200_0000_0000_0000 <= pts < 0x400_0000_0000_0000
    ensures Value(Duration(pts)) > pts <==> Value(FromNat(pts)) > pts || FromNat(pts).significand % 2 == 1
  {
    var m := FromNat(pts).significand;
    RoundingError(pts);
    SignificandBounds(pts);
    Binades(pts);
    if m < EXACT_LIMIT {
      FromQuotient(m, 5, FRAME_MS);
    } else {
      FromQuotient(HIDDEN, 6, FRAME_MS);
    }
  }

  /** Beyond, 16 is less than half a unit and is lost. */
  lemma {:induction false} Lost(m: nat, k: nat)
    requires HIDDEN <= m <= EXACT_LIMIT && Pow2(k) > 32
    ensures Value(FromNat(m * Pow2(k) + FRAME_MS)) == m * Pow2(k)
  {
    if m < EXACT_LIMIT {
      FromQuotient(m, k, FRAME_MS);
    } else {
      FromQuotient(HIDDEN, k + 1, FRAME_MS);
      assert m * Pow2(k) == HIDDEN * Pow2(k + 1);
    }
  }

  lemma {:induction false} WideUnit(pts: nat)
    requires 0x400_0000_0000_0000 <= pts <= MAX_PTS
    ensures Shift(pts) > 0 && Pow2(Shift(pts)) > 32
  {
    Binades(pts);
  }

  lemma {:induction false} PastBinade58(pts: nat)
    requires 0x400_0000_0000_0000 <= pts <= MAX_PTS
    ensures Value(Duration(pts)) == Value(FromNat(pts))
  {
    SignificandBounds(pts);
    WideUnit(pts);
    Lost(FromNat(pts).significand, Shift(pts));
  }

  /** The time stamp is below 2^57 ms, or rounds up, or is below 2^58 ms and rounds to an odd significand. */
  predicate Covered(pts: nat)
  {
    || pts < 0x200_0000_0000_0000
    || Value(FromNat(pts)) > pts
    || (pts < 0x400_0000_0000_0000 && FromNat(pts).significand % 2 == 1)
  }

  /** The Duration written is past the last frame exactly then. */
  lemma {:induction false} CoversExactly(pts: nat)
    requires pts <= MAX_PTS
    ensures FromBytes(DurationBytes(pts)) == Some(Value(Duration(pts)))
    ensures Value(Duration(pts)) > pts <==> Covered(pts)
  {
    Encodable(pts);
    RoundTrip(Duration(pts));
    if pts < 0x100_0000_0000_0000 {
      BelowBinade57(pts);
    } else if pts < 0x200_0000_0000_0000 {
      Binade57(pts);
    } else if pts < 0x400_0000_0000_0000 {
      Binade58(pts);
    } else {
      PastBinade58(pts);
    }
  }

  /** Below 2^53 nothing is rounded. */
  lemma {:induction false} ExactBelow(pts: nat)
    requires pts + 16 < 0x20_0000_0000_0000
    ensures Value(Duration(pts)) == pts + 16
  {
    RoundingError(pts);
    RoundingError(pts + 16);
  }

  /** 2^57 ms is not covered: the sum rounds back to it. */
  lemma {:induction false} NotCovered()
    ensures Value(Duration(0x200_0000_0000_0000)) == 0x200_0000_0000_0000
  {
    Binades(0x200_0000_0000_0000);
    Binades(0x200_0000_0000_0010);
  }
}
