/** Binary floating point, section 3.4 of IEEE 754-2019: values, rounding and bit patterns. */
module Floats {

  // ----- powers of two

  function Pow2(k: nat): (r: nat)
    ensures r > 0
  {
    if k == 0 then 1 else 2 * Pow2(k - 1)
  }

  lemma {:induction false} Pow2Sum(i: nat, j: nat)
    ensures Pow2(i + j) == Pow2(i) * Pow2(j)
  {
    if i > 0 { Pow2Sum(i - 1, j); }
  }

  lemma {:induction false} Pow2Rises(i: nat, j: nat)
    requires i <= j
    ensures Pow2(i) <= Pow2(j)
  {
    if i < j { Pow2Rises(i, j - 1); }
  }

  /** The quotient and the remainder of a division by 2^k. */
  function Quo(m: nat, k: nat): nat {
    if k == 0 then m else Quo(m / 2, k - 1)
  }

  function Rem(m: nat, k: nat): nat {
    if k == 0 then 0 else 2 * Rem(m / 2, k - 1) + m % 2
  }

  lemma Twice(q: nat, u: nat)
    ensures q * (2 * u) == 2 * (q * u)
  {
  }

  lemma {:induction false} QuoRem(m: nat, k: nat)
    ensures m == Quo(m, k) * Pow2(k) + Rem(m, k) && Rem(m, k) < Pow2(k)
  {
    if k > 0 {
      QuoRem(m / 2, k - 1);
      var q, u := Quo(m / 2, k - 1), Pow2(k - 1);
      Twice(q, u);
    }
  }

  lemma {:induction false} QuoRemOf(q: nat, r: nat, k: nat)
    requires r < Pow2(k)
    ensures Quo(q * Pow2(k) + r, k) == q && Rem(q * Pow2(k) + r, k) == r
  {
    if k > 0 {
      var m, h := q * Pow2(k) + r, q * Pow2(k - 1);
      Twice(q, Pow2(k - 1));
      assert m == 2 * h + r;
      assert m / 2 == h + r / 2 && m % 2 == r % 2;
      QuoRemOf(q, r / 2, k - 1);
    }
  }

  lemma {:induction false} RemSmall(m: nat, k: nat)
    requires m < Pow2(k)
    ensures Rem(m, k) == m
  {
    if k > 0 { RemSmall(m / 2, k - 1); }
  }

  lemma {:induction false} QuoLess(m: nat, k: nat, n: nat)
    requires k <= n && m < Pow2(n)
    ensures Quo(m, k) < Pow2(n - k)
  {
    if k > 0 { QuoLess(m / 2, k - 1, n - 1); }
  }

  /** A multiple of a power of two is one of every smaller power. */
  lemma {:induction false} Divides(m: nat, i: nat, j: nat)
    requires i <= j && Rem(m, j) == 0
    ensures Rem(m, i) == 0
  {
    if i > 0 { Divides(m / 2, i - 1, j - 1); }
  }

  lemma {:induction false} RemScale(m: nat, s: nat, k: nat)
    requires Rem(m, s) == 0
    ensures Rem(m * Pow2(k), s + k) == 0
  {
    if k > 0 {
      RemScale(m, s, k - 1);
      Twice(m, Pow2(k - 1));
    }
  }

  /** The number of binary digits. */
  function BitLen(m: nat): nat {
    if m == 0 then 0 else 1 + BitLen(m / 2)
  }

  lemma {:induction false} BitLenBounds(m: nat)
    ensures m < Pow2(BitLen(m))
    ensures m > 0 ==> BitLen(m) > 0 && Pow2(BitLen(m) - 1) <= m
  {
    if m > 1 { BitLenBounds(m / 2); }
  }

  lemma {:induction false} BitLenIs(m: nat, k: nat)
    requires Pow2(k) <= m < Pow2(k + 1)
    ensures BitLen(m) == k + 1
  {
    if k > 0 { BitLenIs(m / 2, k - 1); } else { assert m == 1 && BitLen(m / 2) == 0; }
  }

  lemma BitLenAtMost(m: nat, k: nat)
    requires m < Pow2(k)
    ensures BitLen(m) <= k
  {
    BitLenBounds(m);
    Pow2Rises(k, if BitLen(m) > k then BitLen(m) - 1 else k);
  }

  lemma {:induction false} BitLenScale(m: nat, k: nat)
    requires m > 0
    ensures BitLen(m * Pow2(k)) == BitLen(m) + k
  {
    if k > 0 {
      BitLenScale(m, k - 1);
      Twice(m, Pow2(k - 1));
    }
  }

  // ----- rounding

  /** How many digits are rounded away, to keep `p` and no unit below 2^d. */
  function Shift(m: nat, p: nat, d: nat): nat {
    if BitLen(m) > p + d then BitLen(m) - p else d
  }

  /** To the nearest multiple of 2^k, and to an even one if there are two. */
  function NearestQuo(m: nat, k: nat): nat {
    var q, r := Quo(m, k), Rem(m, k);
    if 2 * r < Pow2(k) || (2 * r == Pow2(k) && q % 2 == 0) then q else q + 1
  }

  function Nearest(m: nat, k: nat): nat {
    NearestQuo(m, k) * Pow2(k)
  }

  function Round(m: nat, p: nat, d: nat): nat {
    Nearest(m, Shift(m, p, d))
  }

  function Distance(a: int, b: int): nat {
    if a < b then b - a else a - b
  }

  /** Rounding is roundTiesToEven of section 4.3.1: no other multiple is nearer, or as near if it is odd. */
  lemma NearestIsNearest(m: nat, k: nat, x: nat)
    ensures var n := NearestQuo(m, k);
      && Distance(m, n * Pow2(k)) <= Distance(m, x * Pow2(k))
      && (Distance(m, n * Pow2(k)) == Distance(m, x * Pow2(k)) ==> x == n || n % 2 == 0)
  {
    hide Quo, Rem, Pow2;
    QuoRem(m, k);
    Between(Quo(m, k), Rem(m, k), Pow2(k), x, NearestQuo(m, k));
  }

  lemma Between(q: nat, r: nat, u: nat, x: nat, n: nat)
    requires r < u && n == if 2 * r < u || (2 * r == u && q % 2 == 0) then q else q + 1
    ensures Distance(q * u + r, n * u) <= Distance(q * u + r, x * u)
    ensures Distance(q * u + r, n * u) == Distance(q * u + r, x * u) ==> x == n || n % 2 == 0
  {
    assert (q + 1) * u == q * u + u;
    if x < q { Gap(x, q, u); }
    if x > q + 1 { Gap(q + 1, x, u); }
  }

  lemma Gap(a: nat, b: nat, u: nat)
    requires a < b
    ensures a * u + u <= b * u
  {
    assert b * u == a * u + (b - a) * u;
    assert (b - a) * u == u + (b - a - 1) * u;
  }

  lemma RoundExact(m: nat, p: nat, d: nat)
    ensures Round(m, p, d) == m <==> Rem(m, Shift(m, p, d)) == 0
  {
    var k := Shift(m, p, d);
    hide Quo, Rem, Pow2;
    QuoRem(m, k);
    assert (Quo(m, k) + 1) * Pow2(k) == Quo(m, k) * Pow2(k) + Pow2(k);
  }

  /** `m` has at most `p` digits before its zeros. */
  predicate Fits(m: nat, p: nat) {
    Rem(m, Shift(m, p, 0)) == 0
  }

  lemma FitsIs(q: nat, k: nat, p: nat)
    requires q <= Pow2(p) && p > 0
    ensures Fits(q * Pow2(k), p)
  {
    hide Rem, BitLen, Pow2, Quo;
    var m := q * Pow2(k);
    if q == 0 {
      ZeroRem(Shift(m, p, 0));
    } else if q < Pow2(p) {
      BitLenScale(q, k);
      BitLenAtMost(q, p);
      MultipleRem(q, k);
      Divides(m, Shift(m, p, 0), k);
    } else {
      Pow2Sum(p, k);
      Pow2Sum(p - 1, k + 1);
      PowerBelow(p + k, p + k + 1);
      BitLenIs(m, p + k);
      MultipleRem(Pow2(p - 1), k + 1);
    }
  }

  lemma MultipleRem(q: nat, k: nat)
    ensures Rem(q * Pow2(k), k) == 0 && Quo(q * Pow2(k), k) == q
  {
    QuoRemOf(q, 0, k);
  }

  lemma {:induction false} ZeroRem(k: nat)
    ensures Rem(0, k) == 0
  {
    if k > 0 { ZeroRem(k - 1); }
  }

  lemma RoundFits(m: nat, p: nat)
    requires p > 0
    ensures Fits(Round(m, p, 0), p)
  {
    hide Rem, BitLen, Quo, Pow2;
    var k := Shift(m, p, 0);
    BitLenBounds(m);
    QuoLess(m, k, BitLen(m));
    Pow2Rises(BitLen(m) - k, p);
    FitsIs(Quo(m, k), k, p);
    FitsIs(Quo(m, k) + 1, k, p);
  }

  lemma FitsMore(m: nat, p: nat, q: nat)
    requires Fits(m, p) && p <= q
    ensures Fits(m, q)
  {
    Divides(m, Shift(m, q, 0), Shift(m, p, 0));
  }

  lemma FitsScale(m: nat, p: nat, k: nat)
    requires Fits(m, p)
    ensures Fits(m * Pow2(k), p)
  {
    hide Rem, BitLen, Pow2;
    if m > 0 {
      BitLenScale(m, k);
      var s := Shift(m, p, 0);
      RemScale(m, s, k);
      Divides(m * Pow2(k), Shift(m * Pow2(k), p, 0), s + k);
    } else {
      ZeroRem(Shift(m * Pow2(k), p, 0));
    }
  }

  // ----- exponent and fraction

  /** The exponent field and the fraction of a magnitude of `p` digits. */
  function PackMag(m: nat, p: nat): (nat, nat)
    requires p > 0
  {
    if m < Pow2(p - 1) || BitLen(m) < p then (0, m)
    else
      var k := BitLen(m) - p;
      var q := Quo(m, k);
      (k + 1, if q < Pow2(p - 1) then 0 else q - Pow2(p - 1))
  }

  function UnpackMag(e: nat, f: nat, p: nat): nat
    requires p > 0
  {
    if e == 0 then f else (Pow2(p - 1) + f) * Pow2(e - 1)
  }

  lemma UnpackPackMag(m: nat, p: nat, n: nat)
    requires p > 0 && Fits(m, p) && m < Pow2(n) && p <= n
    ensures var (e, f) := PackMag(m, p); UnpackMag(e, f, p) == m && f < Pow2(p - 1) && e <= n - p + 1
  {
    hide Pow2, BitLen, Quo, Rem;
    BitLenBounds(m);
    BitLenAtMost(m, n);
    if m >= Pow2(p - 1) {
      if BitLen(m) < p { Pow2Rises(BitLen(m), p - 1); }
      var k := BitLen(m) - p;
      QuoRem(m, k);
      QuoLess(m, k, BitLen(m));
      Pow2Sum(p - 1, k);
      TopDigit(m, p, k);
      Pow2Sum(1, p - 1);
      OnePower();
    }
  }

  lemma OnePower()
    ensures Pow2(1) == 2 && Pow2(0) == 1
  {
  }

  lemma TopDigit(m: nat, p: nat, k: nat)
    requires p > 0 && m == Quo(m, k) * Pow2(k) && Pow2(p - 1) * Pow2(k) <= m
    ensures Quo(m, k) >= Pow2(p - 1)
  {
    hide Quo, Pow2;
    if Quo(m, k) < Pow2(p - 1) { Gap(Quo(m, k), Pow2(p - 1), Pow2(k)); }
  }

  lemma UnpackFits(e: nat, f: nat, p: nat)
    requires p > 0 && f < Pow2(p - 1)
    ensures Fits(UnpackMag(e, f, p), p) && UnpackMag(e, f, p) < Pow2(p + e)
  {
    hide BitLen, Quo, Rem, Pow2;
    OnePower();
    Pow2Sum(1, p - 1);
    if e == 0 {
      assert f * Pow2(0) == f;
      FitsIs(f, 0, p);
      Pow2Rises(p - 1, p);
    } else {
      FitsIs(Pow2(p - 1) + f, e - 1, p);
      Pow2Sum(p, e - 1);
      Pow2Rises(p + (e - 1), p + e);
      LessTimes(Pow2(p - 1) + f, Pow2(p), Pow2(e - 1));
    }
  }

  lemma LessTimes(a: nat, b: nat, u: nat)
    requires a < b && u > 0
    ensures a * u < b * u
  {
    Gap(a, b, u);
  }

  // ----- values and bit patterns

  /** A value; a magnitude counts units of 2^-1074, the least that is a 64-bit float. */
  datatype Real = NaN | Inf(neg: bool) | Fin(neg: bool, mag: nat)

  type Bits32 = n: int | 0 <= n < 0x1_0000_0000

  type Bits64 = n: int | 0 <= n < 0x1_0000_0000_0000_0000

  /** Exponents of the units of both formats, and of the least power of two that is too large. */
  const UNIT: nat := 1074
  const LEAST32: nat := 925
  const TOP32: nat := 1202
  const TOP64: nat := 2098

  predicate IsF64(v: Real) {
    v.Fin? ==> Fits(v.mag, 53) && v.mag < Pow2(TOP64)
  }

  predicate IsF32(v: Real) {
    v.Fin? ==>
      && Rem(v.mag, LEAST32) == 0 && Fits(Quo(v.mag, LEAST32), 24)
      && Quo(v.mag, LEAST32) < Pow2(TOP32 - LEAST32)
  }

  function Unpack64(b: Bits64): Real {
    var neg, e, f := b >= 0x8000_0000_0000_0000, (b / 0x10_0000_0000_0000) % 0x800, b % 0x10_0000_0000_0000;
    if e < 0x7FF then Fin(neg, UnpackMag(e, f, 53)) else if f == 0 then Inf(neg) else NaN
  }

  function Unpack32(b: Bits32): Real {
    var neg, e, f := b >= 0x8000_0000, (b / 0x80_0000) % 0x100, b % 0x80_0000;
    if e < 0xFF then Fin(neg, UnpackMag(e, f, 24) * Pow2(LEAST32)) else if f == 0 then Inf(neg) else NaN
  }

  /** The fields of a pattern; those that are out of range are not met. */
  function Join64(neg: bool, e: nat, f: nat): Bits64 {
    (if neg then 0x8000_0000_0000_0000 else 0) + (e % 0x800) * 0x10_0000_0000_0000 + f % 0x10_0000_0000_0000
  }

  function Join32(neg: bool, e: nat, f: nat): Bits32 {
    (if neg then 0x8000_0000 else 0) + (e % 0x100) * 0x80_0000 + f % 0x80_0000
  }

  function Pack64(v: Real): Bits64 {
    match v
    case NaN => Join64(false, 0x7FF, 0x8_0000_0000_0000)
    case Inf(neg) => Join64(neg, 0x7FF, 0)
    case Fin(neg, m) => var (e, f) := PackMag(m, 53); Join64(neg, e, f)
  }

  function Pack32(v: Real): Bits32 {
    match v
    case NaN => Join32(false, 0xFF, 0x40_0000)
    case Inf(neg) => Join32(neg, 0xFF, 0)
    case Fin(neg, m) => var (e, f) := PackMag(Quo(m, LEAST32), 24); Join32(neg, e, f)
  }

  lemma SmallPowers()
    ensures Pow2(1) == 2 && Pow2(10) == 1024 && Pow2(13) == 8192
  {
    assert Pow2(5) == 32;
  }

  lemma Powers()
    ensures Pow2(23) == 0x80_0000 && Pow2(52) == 0x10_0000_0000_0000 && Pow2(63) == 0x8000_0000_0000_0000
    ensures Pow2(10) == 0x400 && Pow2(53) == 0x20_0000_0000_0000
  {
    hide Pow2;
    SmallPowers();
    Pow2Sum(10, 13);
    Pow2Sum(13, 13);
    Pow2Sum(26, 26);
    Pow2Sum(52, 1);
    Pow2Sum(53, 10);
  }

  lemma Fields64(neg: bool, e: nat, f: nat)
    requires e < 0x800 && f < 0x10_0000_0000_0000
    ensures var b := Join64(neg, e, f);
      (b >= 0x8000_0000_0000_0000 <==> neg) && (b / 0x10_0000_0000_0000) % 0x800 == e && b % 0x10_0000_0000_0000 == f
  {
    var b := Join64(neg, e, f);
    assert b == ((if neg then 0x800 else 0) + e) * 0x10_0000_0000_0000 + f;
    assert b / 0x10_0000_0000_0000 == (if neg then 0x800 else 0) + e;
  }

  lemma Fields32(neg: bool, e: nat, f: nat)
    requires e < 0x100 && f < 0x80_0000
    ensures var b := Join32(neg, e, f);
      (b >= 0x8000_0000 <==> neg) && (b / 0x80_0000) % 0x100 == e && b % 0x80_0000 == f
  {
    var b := Join32(neg, e, f);
    assert b == ((if neg then 0x100 else 0) + e) * 0x80_0000 + f;
    assert b / 0x80_0000 == (if neg then 0x100 else 0) + e;
  }

  lemma Unpack64Pack(v: Real)
    requires IsF64(v)
    ensures Unpack64(Pack64(v)) == v
  {
    hide Pow2, PackMag, UnpackMag, Fits, Join64;
    match v
    case NaN => Fields64(false, 0x7FF, 0x8_0000_0000_0000);
    case Inf(neg) => Fields64(neg, 0x7FF, 0);
    case Fin(neg, m) =>
      UnpackPackMag(m, 53, TOP64);
      Powers();
      Fields64(neg, PackMag(m, 53).0, PackMag(m, 53).1);
  }

  lemma Unpack32Pack(v: Real)
    requires IsF32(v)
    ensures Unpack32(Pack32(v)) == v
  {
    hide Pow2, PackMag, UnpackMag, Fits, Rem, Quo, Join32;
    match v
    case NaN => Fields32(false, 0xFF, 0x40_0000);
    case Inf(neg) => Fields32(neg, 0xFF, 0);
    case Fin(neg, m) =>
      var q := Quo(m, LEAST32);
      UnpackPackMag(q, 24, TOP32 - LEAST32);
      QuoRem(m, LEAST32);
      Powers();
      Fields32(neg, PackMag(q, 24).0, PackMag(q, 24).1);
  }

  // ----- conversions

  type I64 = n: int | -0x8000_0000_0000_0000 <= n < 0x8000_0000_0000_0000

  const MIN64: I64 := -0x8000_0000_0000_0000
  const MAX64: I64 := 0x7FFF_FFFF_FFFF_FFFF

  function OfInt(n: I64, p: nat): Real {
    Fin(n < 0, Round(Distance(n, 0), p, 0) * Pow2(UNIT))
  }

  function Limit(t: int): I64 {
    if t < MIN64 then MIN64 else if t > MAX64 then MAX64 else t
  }

  /** Cut off to an integer; what is out of range becomes the nearest limit. */
  function ToInt(v: Real): I64 {
    match v
    case NaN => 0
    case Inf(neg) => if neg then MIN64 else MAX64
    case Fin(neg, m) =>
      var t := if neg then 0 - Quo(m, UNIT) else Quo(m, UNIT);
      Limit(t)
  }

  function Narrow(v: Real): Real {
    if !v.Fin? then v
    else
      var r := Round(v.mag, 24, LEAST32);
      if r >= Pow2(TOP32) then Inf(v.neg) else Fin(v.neg, r)
  }

  /** Equality of values: the two zeros are equal, and a NaN is not equal to anything. */
  predicate Equal(a: Real, b: Real) {
    match (a, b)
    case (Fin(s, m), Fin(t, n)) => m == n && (s == t || m == 0)
    case (Inf(s), Inf(t)) => s == t
    case _ => false
  }

  function IntAsF32(n: I64): Bits32 { Pack32(OfInt(n, 24)) }

  function IntAsF64(n: I64): Bits64 { Pack64(OfInt(n, 53)) }

  function F32AsF64(b: Bits32): Bits64 { Pack64(Unpack32(b)) }

  function F64AsF32(b: Bits64): Bits32 { Pack32(Narrow(Unpack64(b))) }

  function F32AsInt(b: Bits32): I64 { ToInt(Unpack32(b)) }

  function F64AsInt(b: Bits64): I64 { ToInt(Unpack64(b)) }

  lemma RoundAtMost(m: nat, p: nat, n: nat)
    requires 0 < p <= n && m <= Pow2(n)
    ensures Round(m, p, 0) <= Pow2(n)
  {
    hide Rem, BitLen, Quo, Pow2;
    if m == Pow2(n) {
      OnePower();
      Pow2Rises(0, p);
      FitsIs(1, n, p);
      RoundExact(m, p, 0);
    } else {
      var k := Shift(m, p, 0);
      BitLenAtMost(m, n);
      QuoLess(m, k, n);
      Pow2Sum(n - k, k);
      AtMostTimes(NearestQuo(m, k), Pow2(n - k), Pow2(k));
    }
  }

  lemma AtMostTimes(a: nat, b: nat, u: nat)
    requires a <= b
    ensures a * u <= b * u
  {
    if a < b { Gap(a, b, u); }
  }

  /** An integer that becomes a float is one. */
  lemma OfIntIsFloat(n: I64)
    ensures IsF64(OfInt(n, 53)) && IsF32(OfInt(n, 24))
    ensures Unpack64(IntAsF64(n)) == OfInt(n, 53) && Unpack32(IntAsF32(n)) == OfInt(n, 24)
  {
    hide Rem, BitLen, Quo, Pow2, Pack64, Pack32, Unpack64, Unpack32, Fits, Round;
    var a := Distance(n, 0);
    var r, s := Round(a, 53, 0), Round(a, 24, 0);
    Powers();
    RoundAtMost(a, 53, 63);
    RoundAtMost(a, 24, 63);
    RoundFits(a, 53);
    RoundFits(a, 24);
    FitsScale(r, 53, UNIT);
    Pow2Sum(63, UNIT);
    AtMostTimes(r, Pow2(63), Pow2(UNIT));
    PowerBelow(63 + UNIT, TOP64);
    Scaled32(s);
    Unpack64Pack(OfInt(n, 53));
    Unpack32Pack(OfInt(n, 24));
  }

  lemma PowerBelow(i: nat, j: nat)
    requires i < j
    ensures Pow2(i) < Pow2(j)
  {
    Pow2Rises(i + 1, j);
  }

  /** An integer in the units of 32-bit floats. */
  lemma Scaled32(s: nat)
    requires s <= Pow2(63) && Fits(s, 24)
    ensures var m := s * Pow2(UNIT);
      Rem(m, LEAST32) == 0 && Fits(Quo(m, LEAST32), 24) && Quo(m, LEAST32) < Pow2(TOP32 - LEAST32)
  {
    hide Rem, BitLen, Quo, Pow2, Fits;
    var q, d := s * Pow2(149), 149 + LEAST32;
    Pow2Sum(149, LEAST32);
    TimesTimes(s, Pow2(149), Pow2(LEAST32));
    assert d == UNIT;
    MultipleRem(q, LEAST32);
    FitsScale(s, 24, 149);
    Pow2Sum(63, 149);
    AtMostTimes(s, Pow2(63), Pow2(149));
    PowerBelow(63 + 149, TOP32 - LEAST32);
  }

  lemma TimesTimes(a: nat, b: nat, c: nat)
    ensures a * (b * c) == (a * b) * c
  {
  }

  /** Every 32-bit float is a 64-bit float: nothing is rounded. */
  lemma WideningIsExact(b: Bits32)
    ensures IsF64(Unpack32(b)) && Unpack64(F32AsF64(b)) == Unpack32(b)
  {
    hide Rem, BitLen, Quo, Pow2, Pack64, Unpack64, UnpackMag, Fits;
    var e, f := (b / 0x80_0000) % 0x100, b % 0x80_0000;
    Powers();
    UnpackFits(e, f, 24);
    FitsScale(UnpackMag(e, f, 24), 24, LEAST32);
    FitsMore(UnpackMag(e, f, 24) * Pow2(LEAST32), 24, 53);
    if e < 0xFF {
      Pow2Sum(24 + e, LEAST32);
      LessTimes(UnpackMag(e, f, 24), Pow2(24 + e), Pow2(LEAST32));
      PowerBelow(24 + e + LEAST32, TOP64);
    }
    Unpack64Pack(Unpack32(b));
  }

  lemma ToIntOfInt(n: I64, p: nat)
    ensures ToInt(OfInt(n, p)) == Limit(if n < 0 then 0 - Round(Distance(n, 0), p, 0) else Round(Distance(n, 0), p, 0))
  {
    hide Rem, BitLen, Quo, Pow2, Round;
    MultipleRem(Round(Distance(n, 0), p, 0), UNIT);
  }

  /** The greatest integer is rounded up, by both formats; the cast back cuts that off again. */
  lemma MaxRoundsUp()
    ensures Round(0x7FFF_FFFF_FFFF_FFFF, 53, 0) == 0x8000_0000_0000_0000
  {
    hide Rem, BitLen, Quo, Pow2;
    var m, q := 0x7FFF_FFFF_FFFF_FFFF, 0x1F_FFFF_FFFF_FFFF;
    Powers();
    Pow2Sum(1, 62);
    OnePower();
    BitLenIs(m, 62);
    QuoRemOf(q, 0x3FF, 10);
    assert q * 0x400 + 0x3FF == m;
  }

  /** An integer that a 32-bit float gives back is the same as a 64-bit float. */
  lemma BothFloats(n: I64)
    requires F32AsInt(IntAsF32(n)) == n
    ensures OfInt(n, 24) == OfInt(n, 53) && F64AsInt(IntAsF64(n)) == n
  {
    hide Rem, BitLen, Quo, Pow2, Round, Pack64, Pack32, Unpack64, Unpack32, ToInt;
    var a := Distance(n, 0);
    var r, s := Round(a, 24, 0), Round(a, 53, 0);
    OfIntIsFloat(n);
    ToIntOfInt(n, 24);
    ToIntOfInt(n, 53);
    Powers();
    RoundAtMost(a, 24, 63);
    if r == a {
      RoundExact(a, 24, 0);
      FitsMore(a, 24, 53);
      RoundExact(a, 53, 0);
    } else {
      MaxRoundsUp();
    }
  }
}
