/** What number a bit pattern stands for, section 3.4 of IEEE 754-2019, and what the conversions make of it. */
module FloatValues {
  import opened Floats

  function TwoTo(k: int): (r: real)
    ensures r > 0.0
    decreases if k < 0 then 0 - k else k
  {
    if k == 0 then 1.0 else if k > 0 then 2.0 * TwoTo(k - 1) else TwoTo(k + 1) / 2.0
  }

  lemma TwoToNext(k: int)
    ensures TwoTo(k + 1) == 2.0 * TwoTo(k)
  {
  }

  lemma {:induction false} TwoToSum(i: int, k: nat)
    ensures TwoTo(i + k) == TwoTo(i) * TwoTo(k)
  {
    hide TwoTo;
    if k == 0 {
      ToNone();
    } else {
      TwoToSum(i, k - 1);
      TwoToNext(i + k - 1);
      TwoToNext(k - 1);
      Twist(TwoTo(i), TwoTo(k - 1));
    }
  }

  lemma ToNone()
    ensures TwoTo(0) == 1.0
  {
  }

  lemma Twist(a: real, b: real)
    ensures a * (2.0 * b) == 2.0 * (a * b)
  {
  }

  lemma {:induction false} TwoToPow(k: nat)
    ensures TwoTo(k) == Pow2(k) as real
  {
    if k > 0 { TwoToPow(k - 1); }
  }

  lemma {:induction false} TimesReal(a: nat, b: nat)
    ensures (a * b) as real == a as real * b as real
  {
    if b > 0 {
      TimesReal(a, b - 1);
      assert a * b == a * (b - 1) + a;
    }
  }

  // ----- what a pattern stands for

  predicate Finite64(b: Bits64) {
    (b / 0x10_0000_0000_0000) % 0x800 < 0x7FF
  }

  /** One of the two infinities; all other patterns that are not finite are no numbers. */
  predicate Infinite64(b: Bits64) {
    !Finite64(b) && b % 0x10_0000_0000_0000 == 0
  }

  predicate Finite32(b: Bits32) {
    (b / 0x80_0000) % 0x100 < 0xFF
  }

  /** The number of a 64-bit pattern. */
  function Value64(b: Bits64): real {
    var e, f := (b / 0x10_0000_0000_0000) % 0x800, (b % 0x10_0000_0000_0000) as real / 4503599627370496.0;
    var size := if e == 0 then f * TwoTo(-1022) else (1.0 + f) * TwoTo(e - 1023);
    if b >= 0x8000_0000_0000_0000 then -size else size
  }

  /** The number of a 32-bit pattern. */
  function Value32(b: Bits32): real {
    var e, f := (b / 0x80_0000) % 0x100, (b % 0x80_0000) as real / 8388608.0;
    var size := if e == 0 then f * TwoTo(-126) else (1.0 + f) * TwoTo(e - 127);
    if b >= 0x8000_0000 then -size else size
  }

  /** The number of a magnitude in units of 2^-1074. */
  function Size(m: nat): real {
    m as real * TwoTo(-1074)
  }

  function NumberOf(v: Real): real
    requires v.Fin?
  {
    if v.neg then -Size(v.mag) else Size(v.mag)
  }

  lemma SizeScaled(q: nat, k: nat)
    ensures Size(q * Pow2(k)) == q as real * TwoTo(k - 1074)
  {
    hide TwoTo, Pow2;
    TimesReal(q, Pow2(k));
    TwoToPow(k);
    TwoToSum(-1074, k);
    Regroup(q as real, TwoTo(-1074), TwoTo(k));
  }

  lemma Regroup(a: real, b: real, c: real)
    ensures a * (b * c) == (a * c) * b
  {
  }

  /** The fraction of `p - 1` digits, as a whole number of them. */
  lemma Fraction(f: nat, d: real, p: nat, k: int)
    requires d == TwoTo(p)
    ensures (f as real / d) * TwoTo(k) == f as real * TwoTo(k - p)
    ensures (1.0 + f as real / d) * TwoTo(k) == (Pow2(p) + f) as real * TwoTo(k - p)
  {
    hide TwoTo, Pow2;
    TwoToSum(k - p, p);
    TwoToPow(p);
    Cancel(f as real, d, TwoTo(k - p));
  }

  lemma Cancel(f: real, d: real, u: real)
    requires d > 0.0
    ensures (f / d) * (u * d) == f * u && (1.0 + f / d) * (u * d) == (d + f) * u
  {
    assert (f / d) * d == f;
    assert (f / d) * (u * d) == ((f / d) * d) * u;
  }

  lemma Unpack64Number(b: Bits64)
    ensures Finite64(b) <==> Unpack64(b).Fin?
    ensures Finite64(b) ==> NumberOf(Unpack64(b)) == Value64(b)
  {
    hide TwoTo, Pow2;
    var e, f := (b / 0x10_0000_0000_0000) % 0x800, b % 0x10_0000_0000_0000;
    Powers();
    TwoToPow(52);
    if e == 0 {
      Fraction(f, 4503599627370496.0, 52, -1022);
    } else {
      Fraction(f, 4503599627370496.0, 52, e - 1023);
      SizeScaled(Pow2(52) + f, e - 1);
    }
  }

  lemma Unpack32Number(b: Bits32)
    ensures Finite32(b) <==> Unpack32(b).Fin?
    ensures Finite32(b) ==> NumberOf(Unpack32(b)) == Value32(b)
  {
    hide TwoTo, Pow2;
    var e, f := (b / 0x80_0000) % 0x100, b % 0x80_0000;
    Powers();
    TwoToPow(23);
    if e == 0 {
      Fraction(f, 8388608.0, 23, -126);
      SizeScaled(f, LEAST32);
    } else {
      Fraction(f, 8388608.0, 23, e - 127);
      Pow2Sum(e - 1, LEAST32);
      TimesTimes(Pow2(23) + f, Pow2(e - 1), Pow2(LEAST32));
      SizeScaled(Pow2(23) + f, e - 1 + LEAST32);
    }
  }

  /** The fields of a magnitude are those that it was made of. */
  lemma PackUnpackMag(e: nat, f: nat, p: nat)
    requires p > 1 && f < Pow2(p - 1)
    ensures PackMag(UnpackMag(e, f, p), p) == (e, f)
  {
    hide Pow2, BitLen, Quo, Rem;
    OnePower();
    Pow2Sum(1, p - 1);
    if e > 0 {
      var q := Pow2(p - 1) + f;
      BitLenIs(q, p - 1);
      BitLenScale(q, e - 1);
      MultipleRem(q, e - 1);
      Gap(0, q, Pow2(e - 1));
      AtMostTimes(1, Pow2(e - 1), q);
    }
  }

  /** A pattern that is not NaN is the only one of its value, and every value of a pattern is a float. */
  lemma PackUnpack64(b: Bits64)
    ensures !Unpack64(b).NaN? ==> Pack64(Unpack64(b)) == b
    ensures IsF64(Unpack64(b))
  {
    hide Pow2, PackMag, UnpackMag, Fits;
    var neg, e, f := b >= 0x8000_0000_0000_0000, (b / 0x10_0000_0000_0000) % 0x800, b % 0x10_0000_0000_0000;
    Powers();
    PackUnpackMag(e, f, 53);
    UnpackFits(e, f, 53);
    if e < 0x7FF { Tight64(e, f); }
    assert b == Join64(neg, e, f);
  }

  lemma Tight64(e: nat, f: nat)
    requires e < 0x7FF && f < 0x10_0000_0000_0000
    ensures UnpackMag(e, f, 53) < Pow2(TOP64)
  {
    hide Pow2;
    Powers();
    OnePower();
    if e == 0 {
      PowerBelow(52, TOP64);
    } else {
      LessTimes(Pow2(52) + f, Pow2(53), Pow2(e - 1));
      Pow2Sum(53, e - 1);
      Pow2Rises(52 + e, TOP64);
    }
  }

  // ----- integers as floats

  function Signed(neg: bool, m: nat): int {
    if neg then 0 - m else m
  }

  /** What an integer is rounded to. */
  function Rounded(n: I64, p: nat): int {
    Signed(n < 0, Round(Distance(n, 0), p, 0))
  }

  lemma SizeIs(q: nat)
    ensures Size(q * Pow2(UNIT)) == q as real
  {
    hide TwoTo, Pow2;
    SizeScaled(q, UNIT);
    ToNone();
  }

  /** The float that an integer becomes stands for what it is rounded to. */
  lemma IntAsFloat(n: I64)
    ensures Finite64(IntAsF64(n)) && Value64(IntAsF64(n)) == Rounded(n, 53) as real
    ensures Finite32(IntAsF32(n)) && Value32(IntAsF32(n)) == Rounded(n, 24) as real
  {
    hide TwoTo, Pow2, Round, Unpack64, Unpack32, IntAsF64, IntAsF32, Value64, Value32, Finite64, Finite32, Size;
    OfIntIsFloat(n);
    Unpack64Number(IntAsF64(n));
    Unpack32Number(IntAsF32(n));
    SizeIs(Round(Distance(n, 0), 53, 0));
    SizeIs(Round(Distance(n, 0), 24, 0));
  }

  lemma {:induction false} RemUnscale(m: nat, s: nat, k: nat)
    requires Rem(m * Pow2(k), s + k) == 0
    ensures Rem(m, s) == 0
  {
    if k > 0 {
      Twice(m, Pow2(k - 1));
      RemUnscale(m, s, k - 1);
    }
  }

  lemma FitsUnscale(m: nat, p: nat, k: nat)
    requires Fits(m * Pow2(k), p)
    ensures Fits(m, p)
  {
    hide Rem, BitLen, Pow2;
    if m > 0 && BitLen(m) > p {
      BitLenScale(m, k);
      RemUnscale(m, Shift(m, p, 0), k);
    } else {
      NoRem(m);
    }
  }

  lemma NoRem(m: nat)
    ensures Rem(m, 0) == 0 && (m == 0 ==> Shift(m, 1, 0) == 0 && BitLen(m) == 0)
  {
  }

  /** No number of `p` digits is nearer to `a` than what `a` is rounded to; all are in units of 2^-k. */
  lemma NoneNearer(a: nat, p: nat, m: nat, k: nat)
    requires p > 0 && Fits(m, p)
    ensures Distance(a * Pow2(k), Round(a, p, 0) * Pow2(k)) <= Distance(a * Pow2(k), m)
  {
    hide Rem, Quo, BitLen, Pow2;
    var s := Shift(a, p, 0);
    var r, u := Round(a, p, 0), Pow2(k);
    if Rem(a, s) == 0 {
      RoundExact(a, p, 0);
    } else {
      NoRem(a);
      Scaled(a, r, u);
      if Rem(m, s + k) == 0 {
        QuoRem(m, s + k);
        Pow2Sum(s, k);
        TimesTimes(Quo(m, s + k), Pow2(s), u);
        NearestIsNearest(a, s, Quo(m, s + k));
        Scaled(a, Quo(m, s + k) * Pow2(s), u);
        AtMostTimes(Distance(a, r), Distance(a, Quo(m, s + k) * Pow2(s)), u);
      } else {
        FewerDigits(a, p, m, k);
        NearestIsNearest(a, s, Pow2(p - 1));
        Scaled(a, Pow2(p - 1) * Pow2(s), u);
        AtMostTimes(Distance(a, r), Distance(a, Pow2(p - 1) * Pow2(s)), u);
      }
    }
  }

  lemma Scaled(a: nat, b: nat, u: nat)
    ensures Distance(a * u, b * u) == Distance(a, b) * u
  {
    if a < b { assert b * u == a * u + (b - a) * u; } else { assert a * u == b * u + (a - b) * u; }
  }

  /** A number with digits below those that are kept of `a` is below the power of two that `a` begins with. */
  lemma FewerDigits(a: nat, p: nat, m: nat, k: nat)
    requires p > 0 && Fits(m, p) && BitLen(a) > p && Rem(m, Shift(a, p, 0) + k) != 0
    ensures m <= Pow2(p - 1) * Pow2(Shift(a, p, 0)) * Pow2(k)
    ensures Pow2(p - 1) * Pow2(Shift(a, p, 0)) <= a
    ensures Pow2(p - 1) * Pow2(Shift(a, p, 0)) * Pow2(k) <= a * Pow2(k)
  {
    hide Rem, Quo, BitLen, Pow2;
    var s := Shift(a, p, 0);
    Pow2Sum(p - 1, s);
    Pow2Sum(p - 1 + s, k);
    NoRem(a);
    BitLenBounds(a);
    BitLenBounds(m);
    AtMostTimes(Pow2(p - 1) * Pow2(s), a, Pow2(k));
    if BitLen(m) > p - 1 + s + k { Divides(m, s + k, Shift(m, p, 0)); }
    Pow2Rises(BitLen(m), p - 1 + s + k);
  }

  function Apart(x: real, y: real): real {
    if x < y then y - x else x - y
  }

  /** An integer becomes the nearest 64-bit float. */
  lemma NearestFloat(n: I64, b: Bits64)
    requires Finite64(b)
    ensures Apart(n as real, Value64(IntAsF64(n))) <= Apart(n as real, Value64(b))
  {
    hide TwoTo, Pow2, Round, IntAsF64, Value64, Finite64, Fits, Apart, Size, Unpack64;
    var a, v := Distance(n, 0), Unpack64(b);
    var r := Round(a, 53, 0);
    IntAsFloat(n);
    Unpack64Number(b);
    FloatFits(b);
    NoneNearer(a, 53, v.mag, UNIT);
    NoneNearer(a, 53, 0, UNIT);
    AsNumbers(a, r, v.mag);
    AsNumbers(a, r, 0);
    NearestOfSign(n < 0, v.neg, a as real, r as real, Size(v.mag));
  }

  lemma NearestOfSign(neg: bool, sign: bool, a: real, r: real, x: real)
    requires a >= 0.0 && x >= 0.0 && Apart(a, r) <= Apart(a, x) && Apart(a, r) <= Apart(a, 0.0)
    ensures Apart(if neg then -a else a, if neg then -r else r) <= Apart(if neg then -a else a, if sign then -x else x)
  {
  }

  lemma FloatFits(b: Bits64)
    requires Finite64(b)
    ensures Unpack64(b).Fin? && Fits(Unpack64(b).mag, 53) && Fits(0, 53)
  {
    hide Pow2, Rem, BitLen;
    Powers();
    UnpackFits((b / 0x10_0000_0000_0000) % 0x800, b % 0x10_0000_0000_0000, 53);
    FitsIs(0, 0, 53);
  }

  lemma AsNumbers(a: nat, r: nat, m: nat)
    requires Distance(a * Pow2(UNIT), r * Pow2(UNIT)) <= Distance(a * Pow2(UNIT), m)
    ensures Apart(a as real, r as real) <= Apart(a as real, Size(m)) && Size(m) >= 0.0 == Size(0)
  {
    hide TwoTo, Pow2, Size;
    NoSize(m);
    SizeIs(a);
    SizeIs(r);
    SizeApart(a * Pow2(UNIT), r * Pow2(UNIT));
    SizeApart(a * Pow2(UNIT), m);
    SizeRises(Distance(a * Pow2(UNIT), r * Pow2(UNIT)), Distance(a * Pow2(UNIT), m));
  }

  lemma NoSize(m: nat)
    ensures Size(m) >= 0.0 == Size(0)
  {
    hide TwoTo;
  }

  lemma SizeApart(a: nat, b: nat)
    ensures Apart(Size(a), Size(b)) == Size(Distance(a, b))
  {
    hide TwoTo;
    assert Size(a) - Size(b) == (a as real - b as real) * TwoTo(-1074);
  }

  lemma SizeRises(a: nat, b: nat)
    ensures a <= b <==> Size(a) <= Size(b)
  {
    hide TwoTo;
  }

  /** The patterns of powers of two: only the exponent differs. */
  lemma PowerPattern(k: nat)
    requires k < 63
    ensures Pow2(k) <= MAX64
    ensures IntAsF64(Pow2(k)) == (1023 + k) * 0x10_0000_0000_0000
    ensures IntAsF32(Pow2(k)) == (127 + k) * 0x80_0000
  {
    hide Pow2, BitLen, Quo, Rem, Round, PackMag;
    Powers();
    OnePower();
    PowerBelow(k, 63);
    ExactPower(k, 53);
    ExactPower(k, 24);
    Pow2Sum(k, UNIT);
    PackPower(k + UNIT, 53);
    PowerUnits(k + 149, LEAST32);
    PackPower(k + 149, 24);
  }

  lemma ExactPower(k: nat, p: nat)
    requires p > 0
    ensures Round(Pow2(k), p, 0) == Pow2(k)
  {
    hide Pow2, BitLen, Quo, Rem;
    OnePower();
    Pow2Rises(0, p);
    FitsIs(1, k, p);
    RoundExact(Pow2(k), p, 0);
  }

  lemma PowerUnits(k: nat, d: nat)
    ensures Quo(Pow2(k + d), d) == Pow2(k)
  {
    Pow2Sum(k, d);
    MultipleRem(Pow2(k), d);
  }

  lemma PackPower(k: nat, p: nat)
    requires 0 < p <= k
    ensures PackMag(Pow2(k), p) == (k - p + 2, 0)
  {
    hide Pow2, BitLen, Quo, Rem;
    PowerBelow(k, k + 1);
    BitLenIs(Pow2(k), k);
    Pow2Rises(p - 1, k);
    PowerUnits(p - 1, k - (p - 1));
  }

  // ----- floats as integers

  /** What a float is cut off to: what is too large becomes the nearest limit, and what is no number 0. */
  lemma CastIs(b: Bits64)
    ensures Infinite64(b) ==> F64AsInt(b) == if b >= 0x8000_0000_0000_0000 then MIN64 else MAX64
    ensures !Finite64(b) && !Infinite64(b) ==> F64AsInt(b) == 0
    ensures Finite64(b) && Value64(b) >= 9223372036854775807.0 ==> F64AsInt(b) == MAX64
    ensures Finite64(b) && Value64(b) <= -9223372036854775808.0 ==> F64AsInt(b) == MIN64
    ensures Finite64(b) && -9223372036854775808.0 < Value64(b) < 9223372036854775807.0 ==>
      && Apart(F64AsInt(b) as real, Value64(b)) < 1.0
      && if Value64(b) < 0.0 then Value64(b) <= F64AsInt(b) as real <= 0.0 else 0.0 <= F64AsInt(b) as real <= Value64(b)
  {
    hide TwoTo, Pow2, Quo, Rem, Value64, Finite64, Unpack64, Size, Limit, Infinite64;
    Unpack64Number(b);
    NotFinite(b);
    if Finite64(b) {
      var v := Unpack64(b);
      CutOff(v.mag);
      NoSize(v.mag);
      Within(Signed(v.neg, Quo(v.mag, UNIT)), NumberOf(v));
    }
  }

  lemma NotFinite(b: Bits64)
    ensures Infinite64(b) ==> Unpack64(b) == Inf(b >= 0x8000_0000_0000_0000)
    ensures !Finite64(b) && !Infinite64(b) ==> Unpack64(b) == NaN
  {
  }

  lemma CutOff(m: nat)
    ensures Quo(m, UNIT) as real <= Size(m) < Quo(m, UNIT) as real + 1.0
  {
    hide TwoTo, Pow2, Quo, Rem, Size;
    QuoRem(m, UNIT);
    var q := Quo(m, UNIT);
    SizeIs(q);
    SizeIs(q + 1);
    assert (q + 1) * Pow2(UNIT) == q * Pow2(UNIT) + Pow2(UNIT);
    SizeRises(q * Pow2(UNIT), m);
    SizeRises((q + 1) * Pow2(UNIT), m);
  }

  lemma Within(t: int, v: real)
    requires if v < 0.0 then v <= t as real <= 0.0 else 0.0 <= t as real <= v
    requires Apart(t as real, v) < 1.0
    ensures v >= 9223372036854775807.0 ==> Limit(t) == MAX64
    ensures v <= -9223372036854775808.0 ==> Limit(t) == MIN64
    ensures -9223372036854775808.0 < v < 9223372036854775807.0 ==> Limit(t) == t
  {
  }

  // ----- which integers are floats

  /** The integer is a 64-bit float, or becomes 2^63, which is cut off to it again. */
  lemma ReturnsExact(n: I64, p: nat)
    requires p == 24 || p == 53
    ensures ToInt(OfInt(n, p)) == n <==> Rounded(n, p) == n || n == MAX64
    ensures Rounded(MAX64, p) == 0x8000_0000_0000_0000
  {
    hide Pow2, Quo, Rem, BitLen, Round;
    var a := Distance(n, 0);
    ToIntOfInt(n, p);
    Powers();
    RoundAtMost(a, p, 63);
    MaxRoundsUpTo(p);
  }

  lemma MaxRoundsUpTo(p: nat)
    requires 1 < p <= 53
    ensures Round(0x7FFF_FFFF_FFFF_FFFF, p, 0) == 0x8000_0000_0000_0000
  {
    hide Rem, BitLen, Quo, Pow2;
    var m, k := 0x7FFF_FFFF_FFFF_FFFF, 63 - p;
    Powers();
    Pow2Sum(1, 62);
    OnePower();
    BitLenIs(m, 62);
    Pow2Sum(p, k);
    Pow2Sum(1, p - 1);
    Pow2Sum(1, k - 1);
    assert (Pow2(p) - 1) * Pow2(k) + (Pow2(k) - 1) == m;
    QuoRemOf(Pow2(p) - 1, Pow2(k) - 1, k);
  }

  /** What is read of a float that stands for an integer. */
  lemma IsInteger(n: int, m: nat, neg: bool, p: nat)
    requires -0x8000_0000_0000_0000 <= n <= 0x8000_0000_0000_0000
    requires Fits(m, p) && p > 0 && (if neg then -Size(m) else Size(m)) == n as real
    ensures m == Distance(n, 0) * Pow2(UNIT) && (n != 0 ==> (neg <==> n < 0))
    ensures Round(Distance(n, 0), p, 0) == Distance(n, 0)
  {
    hide Pow2, Quo, Rem, BitLen, Size;
    var a := Distance(n, 0);
    NoSize(m);
    SizeIs(a);
    SizeRises(m, a * Pow2(UNIT));
    SizeRises(a * Pow2(UNIT), m);
    FitsUnscale(a, p, UNIT);
    RoundExact(a, p, 0);
  }
}
