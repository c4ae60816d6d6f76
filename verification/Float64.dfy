/** IEEE-754 binary64 on 64-bit whole numbers: `n as f64`, which rounds to the nearest, ties to even, and
    `to_be_bytes`. */
module Float64 {
  import opened Bytes

  const HIDDEN: nat := 0x10_0000_0000_0000
  const EXACT_LIMIT: nat := 0x20_0000_0000_0000

  function Pow2(n: nat): (p: nat)
  {
    if n == 0 then 1 else 2 * Pow2(n - 1)
  }

  lemma {:induction false} Pow2Positive(k: nat)
    ensures Pow2(k) > 0
  {
    if k == 0 {
    } else {
      Pow2Positive(k - 1);
    }
  }

  function Halve(m: nat, k: nat): (n: nat)
  {
    if k == 0 then m else Halve(m / 2, k - 1)
  }

  /** Double `n` until its leading bit is the hidden bit; the second component counts the doublings. */
  function Normalize(n: nat, k: nat): (r: (nat, nat))
    requires Pow2(k) <= n < EXACT_LIMIT && k <= 52
    ensures HIDDEN <= r.0 < EXACT_LIMIT && k <= r.1 <= 52
    ensures Halve(r.0, r.1 - k) == n
    decreases EXACT_LIMIT - n
  {
    HiddenIsPow2();
    Pow2Positive(k);
    if n >= HIDDEN then (n, k) else
    var r := Normalize(2 * n, k + 1);
    HalveLast(r.0, r.1 - k - 1);
    r
  }

  lemma {:induction false} HalveLast(m: nat, k: nat)
    ensures Halve(m, k + 1) == Halve(m, k) / 2
  {
    if k == 0 {
    } else {
      HalveLast(m / 2, k - 1);
    }
  }

  lemma {:induction false} HiddenIsPow2()
    ensures Pow2(52) == HIDDEN
  {
    Pow2Step(0); Pow2Step(13); Pow2Step(26); Pow2Step(39);
  }

  lemma {:induction false} Pow2Step(n: nat)
    ensures Pow2(n + 13) == 8192 * Pow2(n)
  {
    assert Pow2(n + 3) == 2 * Pow2(n + 2) && Pow2(n + 2) == 2 * Pow2(n + 1);
    assert Pow2(n + 6) == 2 * Pow2(n + 5) && Pow2(n + 5) == 2 * Pow2(n + 4);
    assert Pow2(n + 9) == 2 * Pow2(n + 8) && Pow2(n + 8) == 2 * Pow2(n + 7);
    assert Pow2(n + 12) == 2 * Pow2(n + 11) && Pow2(n + 11) == 2 * Pow2(n + 10);
  }

  // ----- rounding

  /** A non-negative double that is a whole number: significand * 2^shift. */
  datatype Double = Double(significand: nat, shift: nat)

  function Value(d: Double): (n: nat) { d.significand * Pow2(d.shift) }

  /** How far n reaches past the 53 bits of the significand. */
  function Shift(n: nat): (k: nat)
  {
    if n < EXACT_LIMIT then 0 else 1 + Shift(n / 2)
  }

  /** `n as f64`. */
  function FromNat(n: nat): (d: Double)
  {
    var k := Shift(n);
    var u := Pow2(k);
    Pow2Positive(k);
    Double(Nearest(n / u, n % u, u), k)
  }

  /** The sum of a double and a whole number that is one. */
  function Add(d: Double, n: nat): (sum: Double) { FromNat(Value(d) + n) }

  /** q whole units and r over, to the nearest whole number of units, ties to even. */
  function Nearest(q: nat, r: nat, u: nat): (m: nat)
  {
    if 2 * r > u || (2 * r == u && q % 2 == 1) then q + 1 else q
  }

  lemma {:induction false} DivMul(q: nat, u: nat, r: nat)
    requires r < u
    ensures (q * u + r) / u == q && (q * u + r) % u == r
  {
    var n := q * u + r;
    var q' := n / u;
    assert n == q' * u + n % u;
    NextMultiple(q, u);
    NextMultiple(q', u);
    if q' > q { ProductMonotone(q + 1, q', u); }
    if q' < q { ProductMonotone(q' + 1, q, u); }
  }

  /** n lies in the binade of its shift. */
  lemma {:induction false} ShiftBounds(n: nat)
    ensures var u := Pow2(Shift(n)); n < EXACT_LIMIT * u && (Shift(n) > 0 ==> HIDDEN * u <= n)
  {
    if n < EXACT_LIMIT {
    } else {
      ShiftBounds(n / 2);
    }
  }

  /** The shift is the one whose binade n lies in. */
  lemma {:induction false} ShiftIs(n: nat, k: nat)
    requires n < EXACT_LIMIT * Pow2(k) && (k > 0 ==> HIDDEN * Pow2(k) <= n)
    ensures Shift(n) == k
  {
    if k == 0 {
    } else {
      Pow2Positive(k - 1);
      ShiftIs(n / 2, k - 1);
    }
  }

  lemma {:induction false} Quotient(n: nat, u: nat)
    requires u > 0
    ensures n == n / u * u + n % u && n % u < u
    ensures n < EXACT_LIMIT * u ==> n / u < EXACT_LIMIT
    ensures HIDDEN * u <= n ==> HIDDEN <= n / u
  {
    var q := n / u;
    if q >= EXACT_LIMIT { assert q * u >= EXACT_LIMIT * u; }
    if q < HIDDEN { assert (q + 1) * u <= HIDDEN * u; }
  }

  /** The shift and the unit of each binade up to 2^64. */
  lemma {:induction false} Binades(n: nat)
    ensures n < EXACT_LIMIT ==> Shift(n) == 0
    ensures 0x20_0000_0000_0000 <= n < 0x40_0000_0000_0000 ==> Shift(n) == 1 && Pow2(1) == 2
    ensures 0x40_0000_0000_0000 <= n < 0x80_0000_0000_0000 ==> Shift(n) == 2 && Pow2(2) == 4
    ensures 0x80_0000_0000_0000 <= n < 0x100_0000_0000_0000 ==> Shift(n) == 3 && Pow2(3) == 8
    ensures 0x100_0000_0000_0000 <= n < 0x200_0000_0000_0000 ==> Shift(n) == 4 && Pow2(4) == 16
    ensures 0x200_0000_0000_0000 <= n < 0x400_0000_0000_0000 ==> Shift(n) == 5 && Pow2(5) == 32
    ensures 0x400_0000_0000_0000 <= n < 0x800_0000_0000_0000 ==> Shift(n) == 6 && Pow2(6) == 64
    ensures 0x800_0000_0000_0000 <= n < 0x1000_0000_0000_0000 ==> Shift(n) == 7 && Pow2(7) == 128
    ensures 0x1000_0000_0000_0000 <= n < 0x2000_0000_0000_0000 ==> Shift(n) == 8 && Pow2(8) == 256
    ensures 0x2000_0000_0000_0000 <= n < 0x4000_0000_0000_0000 ==> Shift(n) == 9 && Pow2(9) == 512
    ensures 0x4000_0000_0000_0000 <= n < 0x8000_0000_0000_0000 ==> Shift(n) == 10 && Pow2(10) == 1024
    ensures 0x8000_0000_0000_0000 <= n < 0x1_0000_0000_0000_0000 ==> Shift(n) == 11 && Pow2(11) == 2048
  {
    if n < EXACT_LIMIT {
    } else {
      Binades(n / 2);
    }
  }

  /** Rounding leaves the 53 bits full. */
  lemma {:induction false} SignificandBounds(n: nat)
    ensures var d := FromNat(n);
            d.shift == Shift(n) && d.significand <= EXACT_LIMIT && (d.shift > 0 ==> HIDDEN <= d.significand)
  {
    Pow2Positive(Shift(n));
    ShiftBounds(n);
    Quotient(n, Pow2(Shift(n)));
  }

  /** Rounding moves n by at most half a unit. */
  lemma {:induction false} RoundingError(n: nat)
    ensures var (v, u) := (Value(FromNat(n)), Pow2(Shift(n))); u > 0 && 2 * v <= 2 * n + u && 2 * n <= 2 * v + u
    ensures n < EXACT_LIMIT ==> Value(FromNat(n)) == n
  {
    var u := Pow2(Shift(n));
    Pow2Positive(Shift(n));
    Quotient(n, u);
    NearestError(n / u, n % u, u);
  }

  lemma {:induction false} NearestError(q: nat, r: nat, u: nat)
    requires r < u
    ensures 2 * (Nearest(q, r, u) * u) <= 2 * (q * u + r) + u && 2 * (q * u + r) <= 2 * (Nearest(q, r, u) * u) + u
    ensures u == 1 ==> Nearest(q, r, u) == q
  {
    NextMultiple(q, u);
  }

  lemma {:induction false} ProductBounds(q: nat, u: nat)
    requires HIDDEN <= q < EXACT_LIMIT
    ensures HIDDEN * u <= q * u && q * u + u <= EXACT_LIMIT * u
  {
    ProductMonotone(HIDDEN, q, u);
    ProductMonotone(q + 1, EXACT_LIMIT, u);
    NextMultiple(q, u);
  }

  lemma {:induction false} ProductMonotone(a: nat, b: nat, u: nat)
    requires a <= b
    ensures a * u <= b * u
  {
  }

  /** The double of q units and r over. */
  lemma {:induction false} FromQuotient(q: nat, k: nat, r: nat)
    requires HIDDEN <= q < EXACT_LIMIT && r < Pow2(k)
    ensures FromNat(q * Pow2(k) + r) == Double(Nearest(q, r, Pow2(k)), k)
  {
    var u := Pow2(k);
    ProductBounds(q, u);
    ShiftIs(q * u + r, k);
    DivMul(q, u, r);
  }

  lemma {:induction false} NextMultiple(q: nat, u: nat)
    ensures (q + 1) * u == q * u + u
  {
  }

  // ----- bytes

  /** Sign 0, the biased exponent, then the 52 bits below the hidden one. A significand of 2^53 carries into
      the exponent. */
  function Bits(d: Double): (b: nat)
    requires d.significand <= EXACT_LIMIT && d.shift <= 64 && (d.shift > 0 ==> HIDDEN <= d.significand)
    ensures b < 0x8000_0000_0000_0000
  {
    if d.shift > 0 || d.significand == EXACT_LIMIT then (1074 + d.shift) * HIDDEN + d.significand
    else if d.significand == 0 then 0
    else
      var r := Normalize(d.significand, 0);
      (1074 - r.1) * HIDDEN + r.0
  }

  function ToBytes(d: Double): (s: seq<byte>)
    requires d.significand <= EXACT_LIMIT && d.shift <= 64 && (d.shift > 0 ==> HIDDEN <= d.significand)
    ensures |s| == 8
  {
    BigEndian(Bits(d), 8)
  }

  /** The whole number held by a binary64, where it is one. */
  function FromBytes(s: seq<byte>): (r: Option<nat>)
  {
    FromBits(FromBigEndian(s))
  }

  function FromBits(bits: nat): (r: Option<nat>)
  {
    if bits == 0 then Some(0) else Read(bits / HIDDEN, HIDDEN + bits % HIDDEN)
  }

  function Read(exponent: nat, significand: nat): (r: Option<nat>)
  {
    if 1023 <= exponent <= 1075 then Some(Halve(significand, 1075 - exponent))
    else if 1075 < exponent < 2047 then Some(significand * Pow2(exponent - 1075))
    else None
  }

  lemma {:induction false} Split(exponent: nat, low: nat)
    requires low < HIDDEN
    ensures (exponent * HIDDEN + low) / HIDDEN == exponent && (exponent * HIDDEN + low) % HIDDEN == low
  {
  }

  lemma {:induction false} EightBytes(bits: nat)
    requires bits < 0x8000_0000_0000_0000
    ensures FromBigEndian(BigEndian(bits, 8)) == bits
  {
    assert Pow256(8) == 0x1_0000_0000_0000_0000 by {
      assert Pow256(3) == 0x100_0000 && Pow256(6) == 256 * Pow256(5) && Pow256(5) == 256 * Pow256(4);
    }
    BigEndianRoundTrip(bits, 8);
  }

  lemma {:induction false} ReadLarge(m: nat, k: nat)
    requires 0 < k <= 64 && HIDDEN <= m < EXACT_LIMIT
    ensures FromBits((1074 + k) * HIDDEN + m) == Some(m * Pow2(k))
  {
    Split(1075 + k, m - HIDDEN);
  }

  lemma {:induction false} ReadCarry(k: nat)
    requires k <= 64
    ensures FromBits((1074 + k) * HIDDEN + EXACT_LIMIT) == Some(EXACT_LIMIT * Pow2(k))
  {
    assert (1074 + k) * HIDDEN + EXACT_LIMIT == (1076 + k) * HIDDEN;
    Split(1076 + k, 0);
    assert HIDDEN * Pow2(k + 1) == EXACT_LIMIT * Pow2(k) by { assert Pow2(k + 1) == 2 * Pow2(k); }
  }

  lemma {:induction false} ReadSmall(m: nat)
    requires 0 < m < EXACT_LIMIT
    ensures FromBits((1074 - Normalize(m, 0).1) * HIDDEN + Normalize(m, 0).0) == Some(m)
  {
    var r := Normalize(m, 0);
    assert (1074 - r.1) * HIDDEN + r.0 == (1075 - r.1) * HIDDEN + (r.0 - HIDDEN);
    Split(1075 - r.1, r.0 - HIDDEN);
  }

  lemma {:induction false} ReadBits(d: Double)
    requires d.significand <= EXACT_LIMIT && d.shift <= 64 && (d.shift > 0 ==> HIDDEN <= d.significand)
    ensures FromBits(Bits(d)) == Some(Value(d))
  {
    var (m, k) := (d.significand, d.shift);
    if m == EXACT_LIMIT {
      ReadCarry(k);
    } else if k > 0 {
      ReadLarge(m, k);
    } else {
      assert Value(d) == m;
      if m > 0 { ReadSmall(m); }
    }
  }

  lemma {:induction false} RoundTrip(d: Double)
    requires d.significand <= EXACT_LIMIT && d.shift <= 64 && (d.shift > 0 ==> HIDDEN <= d.significand)
    ensures FromBytes(ToBytes(d)) == Some(Value(d))
  {
    EightBytes(Bits(d));
    ReadBits(d);
  }
}
