/**
  Strings measured in three ways: characters, UTF-16 code units and UTF-8 bytes.
  A `char` is a Unicode scalar value.
 */
module Text {
  import opened Ids
  import opened Seqs

  datatype OffsetKind = Bytes | Utf16

  const REPLACEMENT: char := '\U{FFFD}'

  // ----- lengths

  /** UTF-16 code units of one character, section 2.1 of RFC 2781. */
  function Char16(c: char): seq<int> {
    var n := c as int;
    if n < 0x10000 then [n]
    else [0xD800 + (n - 0x10000) / 0x400, 0xDC00 + (n - 0x10000) % 0x400]
  }

  /** How many bytes a character takes in UTF-8, section 3 of RFC 3629. */
  function Width8(c: char): nat {
    var n := c as int;
    if n < 0x80 then 1 else if n < 0x800 then 2 else if n < 0x10000 then 3 else 4
  }

  function Width16(c: char): nat {
    if c as int < 0x10000 then 1 else 2
  }

  function Encode16(s: string): (u: seq<int>) {
    if s == [] then [] else Char16(s[0]) + Encode16(s[1..])
  }

  function Len16(s: string): (n: nat)
    ensures n == |Encode16(s)|
  {
    if s == [] then 0 else Width16(s[0]) + Len16(s[1..])
  }

  function Len8(s: string): nat {
    if s == [] then 0 else Width8(s[0]) + Len8(s[1..])
  }

  predicate IsLowSurrogate(u: int) { 0xDC00 <= u < 0xE000 }

  /** A character above U+FFFF is ten bits in each half of its pair, above 0x10000. */
  lemma PairIs(c: char)
    ensures c as int < 0x10000 ==> Char16(c) == [c as int]
    ensures c as int >= 0x10000 ==>
      && |Char16(c)| == 2 && 0xD800 <= Char16(c)[0] < 0xDC00 && 0xDC00 <= Char16(c)[1] < 0xE000
      && c as int == 0x10000 + (Char16(c)[0] - 0xD800) * 0x400 + (Char16(c)[1] - 0xDC00)
  {
  }

  /** Different strings have different code units. */
  lemma {:induction false} Encode16Tells(s: string, t: string)
    requires Encode16(s) == Encode16(t)
    ensures s == t
  {
    hide Encode16, Char16;
    if s == [] || t == [] {
      EncodeNone();
      if s != [] { HeadTail(s); EncodeCons(s[0], s[1..]); }
      if t != [] { HeadTail(t); EncodeCons(t[0], t[1..]); }
    } else {
      HeadTail(s);
      HeadTail(t);
      EncodeCons(s[0], s[1..]);
      EncodeCons(t[0], t[1..]);
      PairIs(s[0]);
      PairIs(t[0]);
      FirstTells(s[0], t[0], Encode16(s[1..]), Encode16(t[1..]));
      Encode16Tells(s[1..], t[1..]);
    }
  }

  lemma FirstTells(c: char, d: char, u: seq<int>, v: seq<int>)
    requires Char16(c) + u == Char16(d) + v
    ensures c == d && u == v
  {
    var r := Char16(c) + u;
    PairIs(c);
    PairIs(d);
    assert r[0] == Char16(c)[0] == Char16(d)[0];
    assert 0xD800 <= r[0] < 0xDC00 <==> c as int >= 0x10000;
    assert r[|Char16(c)|..] == u && r[|Char16(d)|..] == v;
    if c as int >= 0x10000 { assert r[1] == Char16(c)[1] == Char16(d)[1]; }
  }

  lemma EncodeCons(c: char, rest: string)
    ensures Encode16([c] + rest) == Char16(c) + Encode16(rest)
    ensures |Char16(c)| == Width16(c)
  {
    ConsTail(c, rest);
  }

  lemma EncodeNone()
    ensures Encode16([]) == []
  {
  }

  lemma {:induction false} Encode16Concat(s: string, t: string)
    ensures Encode16(s + t) == Encode16(s) + Encode16(t)
  {
    hide Encode16, Char16;
    if s == [] {
      EncodeNone();
      assert s + t == t;
    } else {
      var c, rest := s[0], s[1..];
      Encode16Concat(rest, t);
      HeadTail(s);
      EncodeCons(c, rest);
      EncodeCons(c, rest + t);
      Assoc([c], rest, t);
      Assoc(Char16(c), Encode16(rest), Encode16(t));
    }
  }

  lemma {:induction false} Len8Concat(s: string, t: string)
    ensures Len8(s + t) == Len8(s) + Len8(t)
  {
    if s == [] {
      assert s + t == t;
    } else {
      Len8Concat(s[1..], t);
      HeadTail(s);
      Assoc([s[0]], s[1..], t);
      ConsTail(s[0], s[1..] + t);
    }
  }

  lemma Len16Concat(s: string, t: string)
    ensures Len16(s + t) == Len16(s) + Len16(t)
  {
    Encode16Concat(s, t);
  }

  // ----- splitting

  /** A cut after `offset` code units; a cut inside a surrogate pair replaces both halves. */
  function Split16(s: string, offset: nat): (string, string) {
    if offset == 0 || s == [] then ([], s)
    else if Width16(s[0]) <= offset then
      var (l, r) := Split16(s[1..], offset - Width16(s[0]));
      ([s[0]] + l, r)
    else ([REPLACEMENT], [REPLACEMENT] + s[1..])
  }

  /** `offset` falls between the two halves of a surrogate pair. */
  predicate CutsPair(s: string, offset: nat) {
    offset < |Encode16(s)| && IsLowSurrogate(Encode16(s)[offset])
  }

  lemma LowSurrogates(c: char, i: nat)
    requires i < |Char16(c)|
    ensures IsLowSurrogate(Char16(c)[i]) <==> i == 1
    ensures |Char16(c)| == Width16(c)
  {
  }

  /** What `Split16` promises, stated on code units: U+FFFD stands for a half of a pair. */
  predicate SplitOK(s: string, offset: nat, l: string, r: string)
    requires offset <= |Encode16(s)|
  {
    if CutsPair(s, offset) && offset > 0 then
      && Encode16(l) == Encode16(s)[..offset - 1] + [0xFFFD]
      && Encode16(r) == [0xFFFD] + Encode16(s)[offset + 1..]
    else
      && l + r == s
      && Encode16(l) == Encode16(s)[..offset] && Encode16(r) == Encode16(s)[offset..]
  }

  lemma CutsPairLater(s: string, offset: nat)
    requires s != [] && Width16(s[0]) <= offset
    ensures CutsPair(s, offset) <==> CutsPair(s[1..], offset - Width16(s[0]))
  {
    hide Char16, Encode16;
    HeadTail(s);
    EncodeCons(s[0], s[1..]);
    UnitsAfter(s[0], Encode16(s[1..]));
  }

  lemma UnitsAfter(c: char, rest: seq<int>)
    ensures var u := Char16(c) + rest; |u| == Width16(c) + |rest| && u[Width16(c)..] == rest
    ensures var u := Char16(c) + rest; forall i :: 0 <= i < |rest| ==> u[Width16(c) + i] == rest[i]
  {
  }

  lemma SplitPrefix(h: seq<int>, rest: seq<int>, n: nat)
    requires n <= |rest|
    ensures (h + rest)[..|h| + n] == h + rest[..n] && (h + rest)[|h| + n..] == rest[n..]
  {
  }

  lemma SplitLater(c: char, rest: string, n: nat, l: string, r: string)
    requires n <= |Encode16(rest)| && SplitOK(rest, n, l, r) && (CutsPair(rest, n) ==> n > 0)
    ensures n + Width16(c) <= |Encode16([c] + rest)|
    ensures SplitOK([c] + rest, n + Width16(c), [c] + l, r)
  {
    hide Encode16, Char16;
    var h, u := Char16(c), Encode16(rest);
    EncodeCons(c, rest);
    EncodeCons(c, l);
    ConsTail(c, rest);
    CutsPairLater([c] + rest, n + Width16(c));
    SplitPrefix(h, u, n);
    if CutsPair(rest, n) {
      SplitPrefix(h, u, n - 1);
      SplitPrefix(h, u, n + 1);
      Assoc(h, u[..n - 1], [0xFFFD]);
    } else {
      Assoc([c], l, r);
    }
  }

  lemma SplitMiddle(c: char, rest: string)
    requires Width16(c) == 2
    ensures |Encode16([c] + rest)| > 1 && CutsPair([c] + rest, 1)
    ensures SplitOK([c] + rest, 1, [REPLACEMENT], [REPLACEMENT] + rest)
    ensures Len16([REPLACEMENT]) == 1 && Len16([REPLACEMENT] + rest) == Len16([c] + rest) - 1
  {
    EncodeCons(c, rest);
    EncodeCons(REPLACEMENT, rest);
    EncodeCons(REPLACEMENT, []);
    assert [REPLACEMENT] + [] == [REPLACEMENT];
    LowSurrogates(c, 1);
  }

  lemma SplitStart(s: string)
    ensures SplitOK(s, 0, [], s) && !CutsPair(s, 0)
  {
    if s != [] { LowSurrogates(s[0], 0); }
  }

  /** The two parts are the two parts of the code units, and as long as asked for. */
  lemma {:induction false} Split16Units(s: string, offset: nat)
    requires offset <= |Encode16(s)|
    ensures SplitOK(s, offset, Split16(s, offset).0, Split16(s, offset).1)
    ensures CutsPair(s, offset) ==> offset > 0
    ensures Len16(Split16(s, offset).0) == offset
    ensures Len16(Split16(s, offset).1) == Len16(s) - offset
  {
    hide SplitOK, CutsPair;
    if offset == 0 || s == [] {
      SplitStart(s);
    } else {
      var c, rest, w := s[0], s[1..], Width16(s[0]);
      assert s == [c] + rest;
      EncodeCons(c, rest);
      if w <= offset {
        var (l, r) := Split16(rest, offset - w);
        assert Split16(s, offset) == ([c] + l, r);
        Split16Units(rest, offset - w);
        SplitLater(c, rest, offset - w, l, r);
        EncodeCons(c, l);
      } else {
        SplitMiddle(c, rest);
        assert Split16(s, offset) == ([REPLACEMENT], [REPLACEMENT] + rest);
      }
    }
  }

  /** Every character is below `bound`. */
  predicate Below(s: string, bound: int) {
    forall i :: 0 <= i < |s| ==> s[i] as int < bound
  }

  /** In the basic plane characters are code units, and no cut is inside a pair. */
  lemma {:induction false} BasicUnits(s: string)
    requires Below(s, 0x10000)
    ensures Len16(s) == |s| && forall i :: 0 <= i < |s| ==> Encode16(s)[i] == s[i] as int
  {
    if s != [] { BasicUnits(s[1..]); }
  }

  lemma BasicCut(s: string, k: nat, bound: int)
    requires Below(s, bound) && bound <= 0x10000 && k <= Len16(s)
    ensures !CutsPair(s, k) && Below(Split16(s, k).0, bound) && Below(Split16(s, k).1, bound)
  {
    hide Encode16, Split16;
    BasicUnits(s);
    Split16Units(s, k);
    var (l, r) := Split16(s, k);
    assert forall i :: 0 <= i < |l| ==> l[i] == s[i];
    assert forall i :: 0 <= i < |r| ==> r[i] == s[|l| + i];
  }

  /** ASCII takes one byte a character. */
  lemma {:induction false} AsciiBytes(s: string)
    requires Below(s, 0x80)
    ensures Len8(s) == |s|
  {
    if s != [] { AsciiBytes(s[1..]); }
  }

  /** In bytes the parts are as long as the string, unless the cut is inside a pair: then they gain 2. */
  lemma {:induction false} Split16Bytes(s: string, offset: nat)
    requires offset <= |Encode16(s)|
    ensures Len8(Split16(s, offset).0) + Len8(Split16(s, offset).1)
         == Len8(s) + if CutsPair(s, offset) then 2 else 0
  {
    hide CutsPair, Encode16;
    if offset == 0 || s == [] {
      SplitStart(s);
    } else {
      var c, rest := s[0], s[1..];
      HeadTail(s);
      EncodeCons(c, rest);
      if Width16(c) <= offset {
        Split16Bytes(rest, offset - Width16(c));
        CutsPairLater(s, offset);
        ConsTail(c, Split16(rest, offset - Width16(c)).0);
      } else {
        SplitMiddle(c, rest);
        ConsTail(REPLACEMENT, rest);
      }
    }
  }

  /** The character that starts at byte `offset`, if one does or the string ends there. */
  function AtByte(s: string, offset: nat): Option<nat> {
    if offset == 0 then Some(0)
    else if s == [] || offset < Width8(s[0]) then None
    else
      var k := AtByte(s[1..], offset - Width8(s[0]));
      if k.Some? then Some(k.value + 1) else None
  }

  lemma EmptyLen8()
    ensures Len8([]) == 0
  {
  }

  lemma Len8Take(s: string, k: nat)
    requires 0 < k <= |s|
    ensures Len8(s[..k]) == Width8(s[0]) + Len8(s[1..][..k - 1]) > 0
  {
    assert s[..k][1..] == s[1..][..k - 1];
  }

  lemma {:induction false} AtByteFinds(s: string, k: nat)
    requires k <= |s|
    ensures AtByte(s, Len8(s[..k])) == Some(k)
  {
    hide Len8, Width8;
    if k == 0 {
      EmptyLen8();
      assert s[..0] == [];
    } else {
      Len8Take(s, k);
      AtByteFinds(s[1..], k - 1);
    }
  }

  lemma {:induction false} AtByteOnly(s: string, offset: nat)
    requires AtByte(s, offset).Some?
    ensures AtByte(s, offset).value <= |s| && Len8(s[..AtByte(s, offset).value]) == offset
  {
    hide Len8, Width8;
    if offset == 0 {
      EmptyLen8();
      assert s[..0] == [];
    } else {
      AtByteOnly(s[1..], offset - Width8(s[0]));
      Len8Take(s, AtByte(s, offset).value);
    }
  }

  lemma AtByteIs(s: string, offset: nat)
    ensures forall k :: 0 <= k <= |s| && Len8(s[..k]) == offset ==> AtByte(s, offset) == Some(k)
    ensures AtByte(s, offset).Some? ==>
      AtByte(s, offset).value <= |s| && Len8(s[..AtByte(s, offset).value]) == offset
  {
    hide Len8, AtByte;
    forall k | 0 <= k <= |s| && Len8(s[..k]) == offset ensures AtByte(s, offset) == Some(k) { AtByteFinds(s, k); }
    if AtByte(s, offset).Some? { AtByteOnly(s, offset); }
  }

  /** A cut after the end leaves everything on the left. */
  lemma {:induction false} Split16Beyond(s: string, offset: nat)
    requires Len16(s) <= offset
    ensures Split16(s, offset) == (s, [])
  {
    if s != [] && offset > 0 {
      Split16Beyond(s[1..], offset - Width16(s[0]));
      HeadTail(s);
    }
  }

  /** What the two parts of a string cut after `offset` code units are. */
  lemma Split16Parts(s: string, offset: nat)
    ensures var (l, r) := Split16(s, offset);
      if offset <= Len16(s) then SplitOK(s, offset, l, r) && Len16(l) == offset && Len16(r) == Len16(s) - offset
      else l == s && r == []
  {
    if offset <= Len16(s) { Split16Units(s, offset); } else { Split16Beyond(s, offset); }
  }

  /** Splits `s`; None stands for the panic of a byte offset that is not on a character. */
  method SplitStr(s: string, offset: nat, kind: OffsetKind) returns (r: Option<(string, string)>)
    ensures kind.Utf16? ==> r == Some(Split16(s, offset))
    ensures kind.Utf16? && offset <= Len16(s) ==>
      && SplitOK(s, offset, r.value.0, r.value.1)
      && Len16(r.value.0) == offset && Len16(r.value.1) == Len16(s) - offset
    ensures kind.Utf16? && Len16(s) < offset ==> r == Some((s, []))
    ensures kind.Bytes? ==> (r.Some? <==> exists k :: 0 <= k <= |s| && Len8(s[..k]) == offset)
    ensures kind.Bytes? && r.Some? ==> r.value.0 + r.value.1 == s && Len8(r.value.0) == offset
  {
    if kind.Bytes? {
      AtByteIs(s, offset);
      var k := AtByte(s, offset);
      if k.None? { return None; }
      assert s[..k.value] + s[k.value..] == s;
      return Some((s[..k.value], s[k.value..]));
    }
    Split16Parts(s, offset);
    var parts := SplitUnits(s, offset);
    return Some(parts);
  }

  /** The loop of `SplitStr`. */
  method SplitUnits(s: string, offset: nat) returns (r: (string, string))
    ensures r == Split16(s, offset)
  {
    var k, i := 0, 0;
    assert s[0..] == s && s[..0] + Split16(s, offset).0 == Split16(s, offset).0;
    while k < |s|
      invariant 0 <= k <= |s| && i <= offset
      invariant Split16(s, offset) ==
        (s[..k] + Split16(s[k..], offset - i).0, Split16(s[k..], offset - i).1)
    {
      if i >= offset { break; }
      var c := s[k];
      assert s[k..][0] == c && s[k..][1..] == s[k + 1..] && s[..k + 1] == s[..k] + [c];
      if i + Width16(c) > offset {
        return SplitSurrogate(s, k);
      }
      assert Split16(s[k..], offset - i) ==
        ([c] + Split16(s[k + 1..], offset - i - Width16(c)).0, Split16(s[k + 1..], offset - i - Width16(c)).1);
      assert s[..k] + ([c] + Split16(s[k + 1..], offset - i - Width16(c)).0)
          == s[..k + 1] + Split16(s[k + 1..], offset - i - Width16(c)).0;
      k, i := k + 1, i + Width16(c);
    }
    assert s[..k] + [] == s[..k];
    return (s[..k], s[k..]);
  }

  function SplitSurrogate(s: string, k: nat): (string, string)
    requires k < |s|
  {
    (s[..k] + [REPLACEMENT], [REPLACEMENT] + s[k + 1..])
  }

  // ----- mapping offsets

  /** UTF-16 offset of the k-th character boundary, and its UTF-8 offset. */
  function Bound16(s: string, k: nat): nat requires k <= |s| { Len16(s[..k]) }

  function Bound8(s: string, k: nat): nat requires k <= |s| { Len8(s[..k]) }

  lemma BoundStep(s: string, k: nat)
    requires k < |s|
    ensures Bound16(s, k + 1) == Bound16(s, k) + Width16(s[k])
    ensures Bound8(s, k + 1) == Bound8(s, k) + Width8(s[k])
  {
    assert s[..k + 1] == s[..k] + [s[k]];
    Len16Concat(s[..k], [s[k]]);
    Len8Concat(s[..k], [s[k]]);
  }

  lemma {:induction false} BoundsRise(s: string, j: nat, k: nat)
    requires j < k <= |s|
    ensures Bound16(s, j) < Bound16(s, k) && Bound8(s, j) < Bound8(s, k)
  {
    BoundStep(s, k - 1);
    if j < k - 1 { BoundsRise(s, j, k - 1); }
  }

  predicate InsideChar8(s: string, offset: nat, k: int) {
    0 <= k < |s| && Bound8(s, k) < offset < Bound8(s, k + 1)
  }

  predicate InsideChar16(s: string, offset: nat, k: int) {
    0 <= k < |s| && Bound16(s, k) < offset < Bound16(s, k + 1)
  }

  lemma BoundsEnd(s: string)
    ensures Bound16(s, |s|) == Len16(s) && Bound8(s, |s|) == Len8(s)
  {
    assert s[..|s|] == s;
  }

  /** An offset inside the k-th character is before all later boundaries and on none. */
  lemma NotABoundary(s: string, offset: nat, k: nat)
    requires InsideChar8(s, offset, k)
    ensures forall j :: 0 <= j <= |s| ==> Bound8(s, j) != offset
    ensures offset < Len8(s)
  {
    hide Bound8, Len8;
    BoundsEnd(s);
    forall j | 0 <= j <= |s| ensures Bound8(s, j) != offset {
      if j < k { BoundsRise(s, j, k); }
      if k + 1 < j { BoundsRise(s, k + 1, j); }
    }
    if k + 1 < |s| { BoundsRise(s, k + 1, |s|); }
  }

  lemma BoundUnique(s: string, j: nat, k: nat)
    requires j <= |s| && k <= |s|
    ensures Bound8(s, j) == Bound8(s, k) ==> j == k
    ensures Bound16(s, j) == Bound16(s, k) ==> j == k
  {
    if j < k { BoundsRise(s, j, k); }
    if k < j { BoundsRise(s, k, j); }
  }

  /**
    From an offset in `kind` to UTF-16.  None stands for the subtraction that goes below zero
    when a byte offset is inside a character.
   */
  method BlockOffset(s: string, offset: nat, kind: OffsetKind) returns (r: Option<nat>)
    ensures kind.Utf16? ==> r == Some(offset)
    ensures kind.Bytes? ==>
      forall k :: 0 <= k <= |s| && Bound8(s, k) == offset ==> r == Some(Bound16(s, k))
    ensures kind.Bytes? && Len8(s) < offset ==> r == Some(Len16(s))
    ensures kind.Bytes? ==> (r.None? <==> exists k :: InsideChar8(s, offset, k))
  {
    if kind.Utf16? { return Some(offset); }
    var remaining, i, k := offset, 0, 0;
    while k < |s|
      invariant 0 <= k <= |s| && 0 <= remaining && Bound8(s, k) + remaining == offset && i == Bound16(s, k)
    {
      if remaining == 0 { break; }
      BoundStep(s, k);
      if remaining < Width8(s[k]) {
        assert InsideChar8(s, offset, k);
        NotABoundary(s, offset, k);
        return None;
      }
      remaining, i := remaining - Width8(s[k]), i + Width16(s[k]);
      k := k + 1;
    }
    BoundsEnd(s);
    forall j | 0 <= j <= |s| && Bound8(s, j) == offset ensures i == Bound16(s, j) {
      if k < |s| { BoundUnique(s, j, k); }
      if j < |s| && k == |s| { BoundsRise(s, j, |s|); }
    }
    if k < |s| { BoundsRise(s, k, |s|); }
    forall j ensures !InsideChar8(s, offset, j) {
      if InsideChar8(s, offset, j) { NotABoundary(s, offset, j); }
    }
    return Some(i);
  }

  /** From UTF-16 to `kind`; an offset inside a surrogate pair moves to the end of the pair. */
  method FromBlockOffset(s: string, offset: nat, kind: OffsetKind) returns (r: nat)
    ensures kind.Utf16? ==> r == offset
    ensures kind.Bytes? ==>
      forall k :: 0 <= k <= |s| && Bound16(s, k) == offset ==> r == Bound8(s, k)
    ensures kind.Bytes? ==> forall k :: InsideChar16(s, offset, k) ==> r == Bound8(s, k + 1)
    ensures kind.Bytes? && Len16(s) <= offset ==> r == Len8(s)
  {
    if kind.Utf16? { return offset; }
    var remaining, k := offset, 0;
    r := 0;
    while k < |s|
      invariant 0 <= k <= |s| && 0 <= remaining && r == Bound8(s, k)
      invariant remaining > 0 ==> Bound16(s, k) + remaining == offset
      invariant remaining == 0 ==> offset <= Bound16(s, k)
      invariant k > 0 ==> Bound16(s, k - 1) < offset
    {
      if remaining == 0 { break; }
      BoundStep(s, k);
      remaining := if remaining < Width16(s[k]) then 0 else remaining - Width16(s[k]);
      r, k := r + Width8(s[k]), k + 1;
    }
    BoundsEnd(s);
    ReachedIs(s, offset, k);
  }

  /** The first boundary at or after `offset` is where `FromBlockOffset` stops. */
  lemma ReachedIs(s: string, offset: nat, k: nat)
    requires k <= |s| && (k > 0 ==> Bound16(s, k - 1) < offset)
    requires k < |s| ==> offset <= Bound16(s, k)
    ensures forall j :: 0 <= j <= |s| && Bound16(s, j) == offset ==> j == k
    ensures forall j :: InsideChar16(s, offset, j) ==> j + 1 == k
    ensures Len16(s) <= offset ==> k == |s|
  {
    BoundsEnd(s);
    forall j | 0 <= j <= |s| && Bound16(s, j) == offset ensures j == k {
      NotPast(s, offset, k, j);
    }
    forall j | InsideChar16(s, offset, j) ensures j + 1 == k {
      NotPast(s, offset, k, j + 1);
      if k <= j { BoundRisesOrSame(s, k, j); }
    }
    if k < |s| { BoundsRise(s, k, |s|); }
  }

  lemma BoundRisesOrSame(s: string, j: nat, k: nat)
    requires j <= k <= |s|
    ensures Bound16(s, j) <= Bound16(s, k)
  {
    if j < k { BoundsRise(s, j, k); }
  }

  lemma NotPast(s: string, offset: nat, k: nat, j: nat)
    requires j <= |s| && k <= |s| && offset <= Bound16(s, j)
    requires k > 0 ==> Bound16(s, k - 1) < offset
    requires k < |s| ==> offset <= Bound16(s, k)
    ensures k <= j
    ensures offset == Bound16(s, j) ==> j == k
  {
    if j < k { BoundRisesOrSame(s, j, k - 1); }
    if k < j { BoundsRise(s, k, j); }
  }

  /** The two mappings undo each other on every boundary, and keep the order of boundaries. */
  method OffsetRoundTrip(s: string, k: nat) returns (there: Option<nat>, back: nat, again: Option<nat>)
    requires k <= |s|
    ensures there == Some(Bound16(s, k)) && back == Bound8(s, k) && again == there
  {
    there := BlockOffset(s, Bound8(s, k), Bytes);
    back := FromBlockOffset(s, there.value, Bytes);
    again := BlockOffset(s, back, Bytes);
  }
}
