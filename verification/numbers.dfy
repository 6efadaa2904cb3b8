/** What the numbers of values are equal to, and in which form they are written. */
module Numbers {
  import opened Ids
  import opened Floats
  import opened FloatValues
  import opened Bytes
  import opened AnyValue
  import opened Codec

  /** 2^63, which the greatest integer is rounded to. */
  const TOP: real := 9223372036854775808.0

  /** A pattern stands for an integer, or for the float that the greatest integer becomes. */
  predicate Stands64(b: Bits64, n: I64) {
    Finite64(b) && (Value64(b) == n as real || (n == MAX64 && Value64(b) == TOP))
  }

  predicate Stands32(b: Bits32, n: I64) {
    Finite32(b) && (Value32(b) == n as real || (n == MAX64 && Value32(b) == TOP))
  }

  /** The same of a value. */
  predicate StandsFor(v: Real, n: I64) {
    v.Fin? && (NumberOf(v) == n as real || (n == MAX64 && NumberOf(v) == TOP))
  }

  lemma StandsIs(v: Real, n: I64, p: nat)
    requires (p == 24 || p == 53) && (v.Fin? ==> Fits(v.mag, p))
    ensures Equal(OfInt(n, p), v) && ToInt(v) == n <==> StandsFor(v, n)
  {
    hide Pow2, Quo, Rem, BitLen, Size, Round, Fits;
    ReturnsExact(n, p);
    if Equal(OfInt(n, p), v) && ToInt(v) == n { CameBack(v, n, p); }
    if StandsFor(v, n) { IsThat(v, n, p); }
  }

  lemma CameBack(v: Real, n: I64, p: nat)
    requires Equal(OfInt(n, p), v)
    ensures ToInt(v) == ToInt(OfInt(n, p)) && NumberOf(v) == Rounded(n, p) as real
  {
    hide Pow2, Quo, Rem, Round, Size;
    SizeIs(Round(Distance(n, 0), p, 0));
    NoSize(v.mag);
    MultipleRem(0, UNIT);
  }

  lemma IsThat(v: Real, n: I64, p: nat)
    requires (p == 24 || p == 53) && v.Fin? && Fits(v.mag, p) && StandsFor(v, n)
    ensures Equal(OfInt(n, p), v) && ToInt(v) == n
  {
    hide Pow2, Quo, Rem, Round, Size, Fits;
    ReturnsExact(n, p);
    var whole: int := if NumberOf(v) == n as real then n else 0x8000_0000_0000_0000;
    IsInteger(whole, v.mag, v.neg, p);
    MultipleRem(Distance(whole, 0), UNIT);
  }

  lemma FloatStands(b: Bits64, n: I64)
    ensures StandsFor(Unpack64(b), n) <==> Stands64(b, n)
    ensures Unpack64(b).Fin? ==> Fits(Unpack64(b).mag, 53)
  {
    hide Value64, Finite64, Fits, Size, Unpack64;
    Unpack64Number(b);
    if Finite64(b) { FloatFits(b); }
  }

  lemma ShortStands(b: Bits32, n: I64)
    ensures StandsFor(Unpack32(b), n) <==> Stands32(b, n)
    ensures Unpack32(b).Fin? ==> Fits(Unpack32(b).mag, 24)
  {
    hide Value32, Finite32, Fits, Size, Pow2;
    Unpack32Number(b);
    var e, f := (b / 0x80_0000) % 0x100, b % 0x80_0000;
    Powers();
    UnpackFits(e, f, 24);
    FitsScale(UnpackMag(e, f, 24), 24, LEAST32);
  }

  /** A float is an integer exactly if it stands for one; so is 2^63, but it becomes one less. */
  lemma AsI64Exact(b: Bits64, n: I64)
    ensures AsI64(Float(b)) == Some(n) <==> Stands64(b, n)
  {
    hide Stands64, StandsFor, Unpack64, OfInt, IntAsF64, ToInt, Equal, Fits;
    var m := F64AsInt(b);
    OfIntIsFloat(m);
    FloatStands(b, n);
    StandsIs(Unpack64(b), n, 53);
    StandsIs(Unpack64(b), m, 53);
  }

  lemma StandsBack(v: Real, n: I64, p: nat)
    requires (p == 24 || p == 53) && (v.Fin? ==> Fits(v.mag, p)) && StandsFor(v, n)
    ensures ToInt(OfInt(n, p)) == n
  {
    hide Pow2, Quo, Rem, BitLen, Size, Round, Fits;
    IsThat(v, n, p);
    CameBack(v, n, p);
  }

  /** An integer that comes back from its floats has floats that stand for it. */
  lemma OwnFloats(n: I64)
    ensures ToInt(OfInt(n, 53)) == n ==> Stands64(IntAsF64(n), n)
    ensures ToInt(OfInt(n, 24)) == n ==> Stands32(IntAsF32(n), n)
    ensures F64AsInt(IntAsF64(n)) == ToInt(OfInt(n, 53)) && F32AsInt(IntAsF32(n)) == ToInt(OfInt(n, 24))
  {
    hide Unpack64, Unpack32, OfInt, IntAsF64, IntAsF32, ToInt, Value64, Value32, Finite64, Finite32, Rounded;
    OfIntIsFloat(n);
    IntAsFloat(n);
    ReturnsExact(n, 53);
    ReturnsExact(n, 24);
  }

  /** An integer is a float exactly if a pattern stands for it. */
  lemma AsF64Exact(n: I64)
    ensures AsF64(Int(n)).Some? <==> exists b: Bits64 :: Stands64(b, n)
    ensures AsF64(Int(n)).Some? ==> Stands64(AsF64(Int(n)).value, n)
  {
    hide Unpack64, OfInt, IntAsF64, ToInt, F64AsInt, Fits, Stands64, StandsFor;
    OwnFloats(n);
    forall b | Stands64(b, n) ensures ToInt(OfInt(n, 53)) == n {
      FloatStands(b, n);
      StandsBack(Unpack64(b), n, 53);
    }
  }

  /** The same of 32-bit floats. */
  lemma AsF32Exact(n: I64)
    ensures F32AsInt(IntAsF32(n)) == n <==> exists c: Bits32 :: Stands32(c, n)
    ensures F32AsInt(IntAsF32(n)) == n ==> Stands32(IntAsF32(n), n)
  {
    hide Unpack32, OfInt, IntAsF32, ToInt, F32AsInt, Fits, Stands32, StandsFor;
    OwnFloats(n);
    forall c | Stands32(c, n) ensures ToInt(OfInt(n, 24)) == n {
      ShortStands(c, n);
      StandsBack(Unpack32(c), n, 24);
    }
  }

  // ----- equality

  /** Two floats that are not NaN are equal exactly if their numbers are, or they are the same infinity. */
  lemma EqualFloats(a: Bits64, b: Bits64)
    ensures Equal(Unpack64(a), Unpack64(b)) <==>
      if Finite64(a) && Finite64(b) then Value64(a) == Value64(b)
      else Infinite64(a) && Infinite64(b) && (a >= 0x8000_0000_0000_0000 <==> b >= 0x8000_0000_0000_0000)
  {
    hide Value64, Finite64, Infinite64, Unpack64, Size;
    Unpack64Number(a);
    Unpack64Number(b);
    NotFinite(a);
    NotFinite(b);
    if Finite64(a) && Finite64(b) { EqualNumbers(Unpack64(a), Unpack64(b)); }
    assert Finite64(a) ==> !Infinite64(a) by { FiniteOnly(a); }
    assert Finite64(b) ==> !Infinite64(b) by { FiniteOnly(b); }
  }

  lemma FiniteOnly(b: Bits64)
    ensures Finite64(b) ==> !Infinite64(b)
  {
  }

  lemma EqualNumbers(v: Real, w: Real)
    requires v.Fin? && w.Fin?
    ensures Equal(v, w) <==> NumberOf(v) == NumberOf(w)
  {
    hide Size;
    NoSize(v.mag);
    NoSize(w.mag);
    SizeRises(v.mag, w.mag);
    SizeRises(w.mag, v.mag);
    SizeRises(v.mag, 0);
    SizeRises(w.mag, 0);
  }

  /** Which numbers are the same: integers and floats are compared by what they stand for. */
  lemma SameNumberIs(n: I64, b: Bits64)
    ensures SameNumber(Int(n), Float(b)) <==> Stands64(b, n)
    ensures SameNumber(Float(b), Int(n)) <==> Stands64(b, n)
  {
    hide Unpack64, Stands64, Fits, OfInt, IntAsF64, F64AsInt, ToInt, StandsFor;
    OwnFloats(n);
    OfIntIsFloat(n);
    FloatStands(b, n);
    StandsIs(Unpack64(b), n, 53);
    if F64AsInt(IntAsF64(n)) == n && Equal(OfInt(n, 53), Unpack64(b)) { CameBack(Unpack64(b), n, 53); }
    if Stands64(b, n) { StandsBack(Unpack64(b), n, 53); }
  }

  // ----- the form

  /** Nothing is rounded away of a number that a 32-bit float stands for. */
  lemma NarrowExact(c: Bits32, b: Bits64)
    requires Unpack32(c).Fin? && Equal(Unpack32(c), Unpack64(b))
    ensures Unpack32(F64AsF32(b)) == Unpack64(b)
  {
    hide Pow2, Rem, Quo, BitLen, Pack32, UnpackMag, Fits, Unpack64;
    var e, f := (c / 0x80_0000) % 0x100, c % 0x80_0000;
    var q, v := UnpackMag(e, f, 24), Unpack64(b);
    Powers();
    UnpackFits(e, f, 24);
    Tight(e, f);
    MultipleRem(q, LEAST32);
    RoundShort(q);
    LessTimes(q, Pow2(277), Pow2(LEAST32));
    Pow2Sum(277, LEAST32);
    Unpack32Pack(v);
  }

  lemma Tight(e: nat, f: nat)
    requires e < 0xFF && f < 0x80_0000
    ensures UnpackMag(e, f, 24) < Pow2(277)
  {
    hide Pow2;
    Powers();
    OnePower();
    if e == 0 {
      PowerBelow(23, 277);
    } else {
      Pow2Sum(1, 23);
      LessTimes(Pow2(23) + f, Pow2(24), Pow2(e - 1));
      Pow2Sum(24, e - 1);
      Pow2Rises(23 + e, 277);
    }
  }

  lemma RoundShort(q: nat)
    requires Fits(q, 24)
    ensures Round(q * Pow2(LEAST32), 24, LEAST32) == q * Pow2(LEAST32)
  {
    hide Pow2, Rem, Quo, BitLen;
    var m := q * Pow2(LEAST32);
    if q == 0 {
      ZeroRem(Shift(m, 24, LEAST32));
    } else {
      BitLenScale(q, LEAST32);
      if BitLen(q) > 24 { RemScale(q, BitLen(q) - 24, LEAST32); } else { MultipleRem(q, LEAST32); }
    }
    RoundExact(m, 24, LEAST32);
  }

  lemma NarrowOther(b: Bits64)
    requires !Finite64(b)
    ensures Equal(Unpack32(F64AsF32(b)), Unpack64(b)) <==> Infinite64(b)
  {
    hide Unpack64, Unpack32, Finite64, Infinite64, Pack32;
    Unpack64Number(b);
    NotFinite(b);
    Unpack32Pack(Inf(false));
    Unpack32Pack(Inf(true));
  }

  ghost predicate Has32(n: I64) {
    exists c: Bits32 :: Stands32(c, n)
  }

  ghost predicate Has64(n: I64) {
    exists b: Bits64 :: Stands64(b, n)
  }

  /** The first form that loses nothing: short, as a float of 32 bits, as one of 64, or whole. */
  ghost predicate Form(e: seq<Byte>, n: I64) {
    if -0x7FFF_FFFF <= n <= 0x7FFF_FFFF then e == [125] + WriteSigned(n)
    else if Has32(n) then exists c: Bits32 :: Stands32(c, n) && e == [124] + ToBytes(c, 4)
    else if Has64(n) then exists b: Bits64 :: Stands64(b, n) && e == [123] + ToBytes(b, 8)
    else e == [122] + ToBytes(if n < 0 then n + 0x1_0000_0000_0000_0000 else n, 8)
  }

  /** An integer is written in the first form that loses nothing. */
  lemma IntForm(n: I64)
    ensures Form(EncodeNumber(Int(n)), n)
  {
    hide Stands64, Stands32, ToBytes, WriteSigned, IntAsF32, IntAsF64, F32AsInt, F64AsInt;
    AsF64Exact(n);
    AsF32Exact(n);
  }

  ghost predicate IsShort(b: Bits64) {
    Finite64(b) && exists c: Bits32 :: Finite32(c) && Value32(c) == Value64(b)
  }

  /** A float is written as 32 bits exactly if a float of 32 bits is the same number, or it is infinite. */
  lemma FloatForm(b: Bits64)
    ensures var e := EncodeNumber(Float(b));
      && (e[0] == 124 <==> Infinite64(b) || IsShort(b))
      && (e[0] == 124 || e == [123] + ToBytes(b, 8))
  {
    hide Unpack64, Unpack32, F32AsF64, F64AsF32, ToBytes, Value64, Value32, Finite64, Finite32, Infinite64, Size;
    var short := F64AsF32(b);
    WideningIsExact(short);
    Unpack32Number(short);
    Unpack64Number(b);
    NotFinite(b);
    FiniteOnly(b);
    if Finite64(b) {
      if Unpack32(short).Fin? { EqualNumbers(Unpack32(short), Unpack64(b)); }
      forall c | Finite32(c) && Value32(c) == Value64(b) ensures Equal(Unpack32(short), Unpack64(b)) {
        Unpack32Number(c);
        EqualNumbers(Unpack32(c), Unpack64(b));
        NarrowExact(c, b);
      }
    } else {
      NarrowOther(b);
    }
  }
}
