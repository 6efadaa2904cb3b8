/** The byte formats that values are made of: fixed and variable integers, buffers and UTF-8 strings. */
module Bytes {
  import opened Ids
  import opened Seqs
  import opened Floats
  import opened Text

  datatype Error = EndOfBuffer | InvalidVarInt | UnexpectedValue | InvalidUtf8

  datatype Read<+T> = Ok(value: T, rest: seq<Byte>) | Err(error: Error)

  // ----- fixed width, most significant byte first

  function ToBytes(v: nat, n: nat): (r: seq<Byte>)
    ensures |r| == n
  {
    if n == 0 then [] else ToBytes(v / 0x100, n - 1) + [v % 0x100]
  }

  function FromBytes(b: seq<Byte>): nat {
    if b == [] then 0 else FromBytes(b[..|b| - 1]) * 0x100 + b[|b| - 1]
  }

  function ReadFixed(b: seq<Byte>, n: nat): Read<nat> {
    if |b| < n then Err(EndOfBuffer) else Ok(FromBytes(b[..n]), b[n..])
  }

  lemma {:induction false} FromToBytes(v: nat, n: nat)
    requires v < Pow2(8 * n)
    ensures FromBytes(ToBytes(v, n)) == v
  {
    if n > 0 {
      var t := ToBytes(v / 0x100, n - 1);
      Pow2Sum(8, 8 * (n - 1));
      assert Pow2(8) == 0x100;
      FromToBytes(v / 0x100, n - 1);
      assert (t + [v % 0x100])[..n - 1] == t;
    }
  }

  /** The byte at `i` is the digit of that place, the greatest first. */
  lemma {:induction false} ToBytesAt(v: nat, n: nat, i: nat)
    requires i < n
    ensures ToBytes(v, n)[i] == Quo(v, 8 * (n - 1 - i)) % 0x100
  {
    hide ToBytes;
    ToBytesNext(v, n - 1);
    if i < n - 1 {
      ToBytesAt(v / 0x100, n - 1, i);
      QuoByte(v, 8 * (n - 2 - i));
    }
  }

  lemma ToBytesNext(v: nat, n: nat)
    ensures ToBytes(v, n + 1) == ToBytes(v / 0x100, n) + [v % 0x100] && Quo(v, 0) == v
  {
  }

  lemma QuoByte(v: nat, k: nat)
    ensures Quo(v, k + 8) == Quo(v / 0x100, k)
  {
    var w := v / 2 / 2 / 2 / 2 / 2 / 2 / 2 / 2;
    assert Quo(v, k + 8) == Quo(v / 2, k + 7) == Quo(v / 2 / 2, k + 6) == Quo(v / 2 / 2 / 2, k + 5);
    assert Quo(v / 2 / 2 / 2, k + 5) == Quo(v / 2 / 2 / 2 / 2, k + 4) == Quo(v / 2 / 2 / 2 / 2 / 2, k + 3);
    assert Quo(v / 2 / 2 / 2 / 2 / 2, k + 3) == Quo(v / 2 / 2 / 2 / 2 / 2 / 2, k + 2) == Quo(w, k);
  }

  lemma ReadFixedBack(v: nat, n: nat, rest: seq<Byte>)
    requires v < Pow2(8 * n)
    ensures ReadFixed(ToBytes(v, n) + rest, n) == Ok(v, rest)
  {
    FromToBytes(v, n);
    Cut(ToBytes(v, n), rest);
  }

  lemma Cut<T>(a: seq<T>, b: seq<T>)
    ensures (a + b)[..|a|] == a && (a + b)[|a|..] == b
  {
  }

  // ----- variable width, seven bits a byte

  function WriteVar(n: nat): (r: seq<Byte>) {
    if n < 0x80 then [n] else [0x80 + n % 0x80] + WriteVar(n / 0x80)
  }

  /** Bitwise or. */
  function Or(a: nat, b: nat): nat {
    if a == 0 then b else Or(a / 2, b / 2) * 2 + (if a % 2 == 1 || b % 2 == 1 then 1 else 0)
  }

  lemma {:induction false} OrIsSum(a: nat, d: nat, k: nat)
    requires a < Pow2(k)
    ensures Or(a, d * Pow2(k)) == a + d * Pow2(k)
  {
    if a > 0 {
      assert k > 0;
      Twice(d, Pow2(k - 1));
      OrIsSum(a / 2, d, k - 1);
    }
  }

  /** Seven more bits at position `len`; the shift wraps around as the machine's does. */
  function AddBits(num: nat, digit: nat, len: nat, width: nat): nat
    requires width > 0
  {
    Or(num, Rem(digit * Pow2(len % width), width))
  }

  /** The binary digit of 2^i. */
  predicate Bit(n: nat, i: nat) {
    Quo(n, i) % 2 == 1
  }

  lemma {:induction false} OrBit(a: nat, b: nat, i: nat)
    ensures Bit(Or(a, b), i) <==> Bit(a, i) || Bit(b, i)
  {
    if a == 0 {
      NoBits(i);
    } else if i > 0 {
      OrBit(a / 2, b / 2, i - 1);
    }
  }

  lemma {:induction false} NoBits(i: nat)
    ensures !Bit(0, i)
  {
    if i > 0 { NoBits(i - 1); }
  }

  lemma {:induction false} RemBit(n: nat, k: nat, i: nat)
    ensures Bit(Rem(n, k), i) <==> i < k && Bit(n, i)
  {
    if k == 0 {
      NoBits(i);
    } else if i > 0 {
      RemBit(n / 2, k - 1, i - 1);
    }
  }

  lemma {:induction false} ShiftBit(n: nat, k: nat, i: nat)
    ensures Bit(n * Pow2(k), i) <==> i >= k && Bit(n, i - k)
  {
    if k > 0 {
      Twice(n, Pow2(k - 1));
      if i > 0 { ShiftBit(n, k - 1, i - 1); }
    }
  }

  /** The bits that are added are those of the digit, from the wrapped position on, as far as there is room. */
  lemma AddBitsAt(num: nat, digit: nat, len: nat, width: nat, i: nat)
    requires width > 0
    ensures Bit(AddBits(num, digit, len, width), i) <==>
      Bit(num, i) || (len % width <= i < width && Bit(digit, i - len % width))
  {
    hide Or, Rem, Pow2, Bit;
    OrBit(num, Rem(digit * Pow2(len % width), width), i);
    RemBit(digit * Pow2(len % width), width, i);
    ShiftBit(digit, len % width, i);
  }

  /** The loop that reads a variable integer, `len` bits of which have been read. */
  function ReadVar(b: seq<Byte>, num: nat, len: nat, width: nat): (r: Read<nat>)
    requires width > 0
    ensures r.Ok? ==> |r.rest| < |b|
  {
    if b == [] then Err(EndOfBuffer)
    else
      var sum := AddBits(num, b[0] % 0x80, len, width);
      if b[0] < 0x80 then Ok(sum, b[1..])
      else if len + 7 > 70 then Err(InvalidVarInt)
      else ReadVar(b[1..], sum, len + 7, width)
  }

  /** How many bytes from the start say that another one follows. */
  function Following(b: seq<Byte>): (k: nat)
    ensures k <= |b|
  {
    if b == [] || b[0] < 0x80 then 0 else 1 + Following(b[1..])
  }

  /** Reading ends after the first byte that says so, if there is one and it is not too late. */
  lemma {:induction false} ReadVarEnds(b: seq<Byte>, num: nat, len: nat, width: nat)
    requires width > 0 && len <= 70 && len % 7 == 0
    ensures var r, k := ReadVar(b, num, len, width), Following(b);
      if len + 7 * k > 70 then r == Err(InvalidVarInt)
      else if k == |b| then r == Err(EndOfBuffer)
      else r.Ok? && r.rest == b[k + 1..]
  {
    hide AddBits;
    if b != [] && b[0] >= 0x80 && len + 7 <= 70 {
      ReadVarEnds(b[1..], AddBits(num, b[0] % 0x80, len, width), len + 7, width);
      assert b[1..][Following(b[1..])..] == b[Following(b)..];
      if Following(b) < |b| { assert b[1..][Following(b[1..]) + 1..] == b[Following(b) + 1..]; }
    }
  }

  lemma SmallMod(a: nat, b: nat)
    requires a < b
    ensures a % b == a
  {
  }

  lemma AddBitsIsSum(num: nat, digit: nat, len: nat, width: nat)
    requires num < Pow2(len) && digit * Pow2(len) < Pow2(width) && len < width
    ensures AddBits(num, digit, len, width) == num + digit * Pow2(len)
  {
    hide Or, Rem, Pow2;
    SmallMod(len, width);
    RemSmall(digit * Pow2(len), width);
    OrIsSum(num, digit, len);
  }

  lemma Seven(len: nat)
    ensures Pow2(len + 7) == 0x80 * Pow2(len)
  {
    Pow2Sum(7, len);
    assert Pow2(7) == 0x80;
  }

  lemma {:induction false} ReadVarBack(n: nat, rest: seq<Byte>, num: nat, len: nat, width: nat)
    requires num < Pow2(len) && n * Pow2(len) < Pow2(width) && len < width <= 64
    ensures ReadVar(WriteVar(n) + rest, num, len, width) == Ok(num + n * Pow2(len), rest)
    decreases n
  {
    hide Pow2, AddBits;
    var u, d, h := Pow2(len), n % 0x80, n / 0x80;
    var b := WriteVar(n) + rest;
    assert n == d + 0x80 * h;
    Parts(n, d, h, u);
    AddBitsIsSum(num, d, len, width);
    if n < 0x80 {
      ConsTail(n, rest);
    } else {
      Seven(len);
      Assoc([0x80 + d], WriteVar(h), rest);
      ConsTail(0x80 + d, WriteVar(h) + rest);
      Widths(h, len + 7, width);
      BelowNext(num, d, u);
      ReadVarBack(h, rest, num + d * u, len + 7, width);
    }
  }

  lemma Parts(n: nat, d: nat, h: nat, u: nat)
    requires n == d + 0x80 * h
    ensures n * u == d * u + h * (0x80 * u) && d * u <= n * u && h * (0x80 * u) <= n * u
  {
    assert (0x80 * h) * u == h * (0x80 * u);
  }

  lemma BelowNext(num: nat, d: nat, u: nat)
    requires num < u && d < 0x80
    ensures num + d * u < 0x80 * u
  {
    AtMostTimes(d, 0x7F, u);
  }

  lemma Widths(h: nat, len: nat, width: nat)
    requires h > 0 && h * Pow2(len) < Pow2(width)
    ensures len < width
  {
    AtMostTimes(1, h, Pow2(len));
    if len >= width { Pow2Rises(width, len); }
  }

  // ----- signed

  /** The first byte holds the sign and six bits. */
  function WriteSigned(n: I64): seq<Byte> {
    var a := Distance(n, 0);
    var first := (if n < 0 then 0x40 else 0) + a % 0x40;
    if a < 0x40 then [first] else [0x80 + first] + WriteVar(a / 0x40)
  }

  function AsSigned(u: nat): int {
    var v := u % 0x1_0000_0000_0000_0000;
    if v < 0x8000_0000_0000_0000 then v else v - 0x1_0000_0000_0000_0000
  }

  function ReadSigned(b: seq<Byte>): (r: Read<I64>)
    ensures r.Ok? ==> |r.rest| < |b|
  {
    if b == [] then Err(EndOfBuffer)
    else
      var neg, num := (b[0] / 0x40) % 2 == 1, b[0] % 0x40;
      var r: Read<nat> := if b[0] < 0x80 then Ok(num, b[1..]) else ReadVar(b[1..], num, 6, 64);
      match r
      case Err(e) => Err(e)
      case Ok(v, rest) =>
        Ok(if neg then AsSigned(0x1_0000_0000_0000_0000 - v % 0x1_0000_0000_0000_0000) else AsSigned(v), rest)
  }

  function WithSign(neg: bool, v: nat): int {
    if neg then AsSigned(0x1_0000_0000_0000_0000 - v % 0x1_0000_0000_0000_0000) else AsSigned(v)
  }

  lemma SignBack(n: I64)
    requires n > MIN64
    ensures WithSign(n < 0, Distance(n, 0)) == n
  {
  }

  lemma ReadSignedIs(b: seq<Byte>, v: nat, rest: seq<Byte>)
    requires b != []
    requires (if b[0] < 0x80 then Ok(b[0] % 0x40, b[1..]) else ReadVar(b[1..], b[0] % 0x40, 6, 64)) == Ok(v, rest)
    ensures ReadSigned(b) == Ok(WithSign((b[0] / 0x40) % 2 == 1, v), rest)
  {
    hide ReadVar, AsSigned;
  }

  lemma ReadSignedBack(n: I64, rest: seq<Byte>)
    requires n > MIN64
    ensures ReadSigned(WriteSigned(n) + rest) == Ok(n, rest)
  {
    hide ReadVar, WriteVar, Pow2, ReadSigned, WithSign, Distance;
    var a := Distance(n, 0);
    var d, h := a % 0x40, a / 0x40;
    var first := (if n < 0 then 0x40 else 0) + d;
    FirstByte(d, n < 0);
    SignBack(n);
    if a < 0x40 {
      ConsTail(first, rest);
      ReadSignedIs([first] + rest, a, rest);
    } else {
      Power32();
      Assoc([0x80 + first], WriteVar(h), rest);
      ConsTail(0x80 + first, WriteVar(h) + rest);
      HighPart(n, a, d, h);
      ReadVarBack(h, rest, d, 6, 64);
      ReadSignedIs([0x80 + first] + (WriteVar(h) + rest), a, rest);
    }
  }

  lemma HighPart(n: I64, a: nat, d: nat, h: nat)
    requires n > MIN64 && a == Distance(n, 0) && d == a % 0x40 && h == a / 0x40
    ensures d < Pow2(6) == 0x40 && d + h * Pow2(6) == a && h * Pow2(6) < Pow2(64)
  {
    Power32();
  }

  lemma FirstByte(d: nat, neg: bool)
    requires d < 0x40
    ensures var b := (if neg then 0x40 else 0) + d;
      && b < 0x80 && b % 0x40 == d && ((b / 0x40) % 2 == 1 <==> neg)
      && (0x80 + b) % 0x40 == d && (((0x80 + b) / 0x40) % 2 == 1 <==> neg)
  {
  }

  // ----- buffers

  function WriteBuf(b: seq<Byte>): seq<Byte> {
    WriteVar(|b|) + b
  }

  /** The length is read as 32 bits. */
  function ReadBuf(b: seq<Byte>): (r: Read<seq<Byte>>)
    ensures r.Ok? ==> |r.rest| < |b|
  {
    match ReadVar(b, 0, 0, 32)
    case Err(e) => Err(e)
    case Ok(n, rest) => if |rest| < n then Err(EndOfBuffer) else Ok(rest[..n], rest[n..])
  }

  lemma ReadBufBack(b: seq<Byte>, rest: seq<Byte>)
    requires |b| < 0x1_0000_0000
    ensures ReadBuf(WriteBuf(b) + rest) == Ok(b, rest)
  {
    hide ReadVar, WriteVar;
    Assoc(WriteVar(|b|), b, rest);
    Power32();
    ReadVarBack(|b|, b + rest, 0, 0, 32);
    Cut(b, rest);
  }

  lemma Power32()
    ensures Pow2(32) == 0x1_0000_0000 && Pow2(0) == 1 && Pow2(6) == 0x40 && Pow2(64) == 0x1_0000_0000_0000_0000
  {
    Powers();
    Pow2Sum(23, 9);
    Pow2Sum(63, 1);
    assert Pow2(9) == 512;
    OnePower();
  }

  // ----- UTF-8, section 3 of RFC 3629

  function EncodeChar(c: char): (r: seq<Byte>)
    ensures |r| == Width8(c)
  {
    var n := c as int;
    if n < 0x80 then [n]
    else if n < 0x800 then [0xC0 + n / 0x40, 0x80 + n % 0x40]
    else if n < 0x10000 then [0xE0 + n / 0x1000, 0x80 + (n / 0x40) % 0x40, 0x80 + n % 0x40]
    else [0xF0 + n / 0x4_0000, 0x80 + (n / 0x1000) % 0x40, 0x80 + (n / 0x40) % 0x40, 0x80 + n % 0x40]
  }

  predicate Continues(b: seq<Byte>, from: nat, to: nat) {
    to <= |b| && forall i :: from <= i < to ==> 0x80 <= b[i] < 0xC0
  }

  function Less(x: int, base: int): int {
    x - base
  }

  /** The first character and its width; nothing but the shortest form of a scalar value is accepted. */
  function DecodeChar(b: seq<Byte>): (r: Option<(char, nat)>)
    requires b != []
    ensures r.Some? ==> 0 < r.value.1 <= |b|
  {
    if b[0] < 0x80 then Some((b[0] as char, 1))
    else if 0xC2 <= b[0] < 0xE0 && Continues(b, 1, 2) then
      Some(((Less(b[0], 0xC0) * 0x40 + Less(b[1], 0x80)) as char, 2))
    else if 0xE0 <= b[0] < 0xF0 && Continues(b, 1, 3) then
      var n := Less(b[0], 0xE0) * 0x1000 + Less(b[1], 0x80) * 0x40 + Less(b[2], 0x80);
      if 0x800 <= n < 0xD800 || 0xE000 <= n then Some((n as char, 3)) else None
    else if 0xF0 <= b[0] < 0xF5 && Continues(b, 1, 4) then
      var n := Less(b[0], 0xF0) * 0x4_0000 + Less(b[1], 0x80) * 0x1000 + Less(b[2], 0x80) * 0x40 + Less(b[3], 0x80);
      if 0x1_0000 <= n < 0x11_0000 then Some((n as char, 4)) else None
    else None
  }

  function ToUtf8(s: string): (r: seq<Byte>)
    ensures |r| == Len8(s)
  {
    if s == [] then [] else EncodeChar(s[0]) + ToUtf8(s[1..])
  }

  function FromUtf8(b: seq<Byte>): Option<string> {
    if b == [] then Some([])
    else
      match DecodeChar(b)
      case None => None
      case Some((c, n)) =>
        match FromUtf8(b[n..])
        case None => None
        case Some(s) => Some([c] + s)
  }

  lemma CharBack(c: char, rest: seq<Byte>)
    ensures EncodeChar(c) + rest != [] && DecodeChar(EncodeChar(c) + rest) == Some((c, Width8(c)))
  {
    var n, b := c as int, EncodeChar(c) + rest;
    if n < 0x80 {
    } else if n < 0x800 {
      assert b[0] == 0xC0 + n / 0x40 && b[1] == 0x80 + n % 0x40;
    } else if n < 0x10000 {
      Digits(n);
      assert b[0] == 0xE0 + n / 0x1000 && b[1] == 0x80 + (n / 0x40) % 0x40 && b[2] == 0x80 + n % 0x40;
    } else {
      Digits(n);
      assert b[0] == 0xF0 + n / 0x4_0000 && b[1] == 0x80 + (n / 0x1000) % 0x40;
      assert b[2] == 0x80 + (n / 0x40) % 0x40 && b[3] == 0x80 + n % 0x40;
    }
  }

  lemma Digits(n: nat)
    ensures n == (n / 0x1000) * 0x1000 + ((n / 0x40) % 0x40) * 0x40 + n % 0x40
    ensures n == (n / 0x4_0000) * 0x4_0000 + ((n / 0x1000) % 0x40) * 0x1000 + ((n / 0x40) % 0x40) * 0x40 + n % 0x40
  {
  }

  lemma {:induction false} Utf8Back(s: string)
    ensures FromUtf8(ToUtf8(s)) == Some(s)
  {
    hide EncodeChar, DecodeChar;
    if s != [] {
      HeadTail(s);
      CharBack(s[0], ToUtf8(s[1..]));
      Cut(EncodeChar(s[0]), ToUtf8(s[1..]));
      Utf8Back(s[1..]);
    }
  }

  /** Only the bytes that a character is written as are read as that character. */
  lemma CharOnly(b: seq<Byte>)
    requires b != [] && DecodeChar(b).Some?
    ensures var (c, n) := DecodeChar(b).value; b[..n] == EncodeChar(c)
  {
    if b[0] >= 0x80 {
      if b[0] < 0xE0 {
        assert Less(b[0], 0xC0) >= 2;
      } else if b[0] < 0xF0 {
        ThreeDigits(Less(b[0], 0xE0), Less(b[1], 0x80), Less(b[2], 0x80));
      } else {
        FourDigits(Less(b[0], 0xF0), Less(b[1], 0x80), Less(b[2], 0x80), Less(b[3], 0x80));
      }
    }
  }

  lemma ThreeDigits(x: nat, y: nat, z: nat)
    requires y < 0x40 && z < 0x40
    ensures var n := x * 0x1000 + y * 0x40 + z; n / 0x1000 == x && (n / 0x40) % 0x40 == y && n % 0x40 == z
  {
  }

  lemma FourDigits(w: nat, x: nat, y: nat, z: nat)
    requires x < 0x40 && y < 0x40 && z < 0x40
    ensures var n := w * 0x4_0000 + x * 0x1000 + y * 0x40 + z;
      n / 0x4_0000 == w && (n / 0x1000) % 0x40 == x && (n / 0x40) % 0x40 == y && n % 0x40 == z
  {
    var high := w * 0x40 + x;
    ThreeDigits(high, y, z);
    assert w * 0x4_0000 + x * 0x1000 == high * 0x1000;
  }

  /** Bytes are read as a string exactly if they are what it is written as. */
  lemma {:induction false} Utf8Only(b: seq<Byte>, s: string)
    ensures FromUtf8(b) == Some(s) <==> b == ToUtf8(s)
  {
    hide EncodeChar, DecodeChar;
    Utf8Back(s);
    if FromUtf8(b) == Some(s) && b != [] {
      var (c, n) := DecodeChar(b).value;
      CharOnly(b);
      Utf8Only(b[n..], FromUtf8(b[n..]).value);
      SplitAt(b, n);
      ConsTail(c, FromUtf8(b[n..]).value);
    }
  }

  function WriteString(s: string): seq<Byte> {
    WriteBuf(ToUtf8(s))
  }

  function ReadString(b: seq<Byte>): (r: Read<string>)
    ensures r.Ok? ==> |r.rest| < |b|
  {
    match ReadBuf(b)
    case Err(e) => Err(e)
    case Ok(u, rest) =>
      match FromUtf8(u)
      case None => Err(InvalidUtf8)
      case Some(s) => Ok(s, rest)
  }

  lemma ReadStringBack(s: string, rest: seq<Byte>)
    requires Len8(s) < 0x1_0000_0000
    ensures ReadString(WriteString(s) + rest) == Ok(s, rest)
  {
    hide ReadBuf, WriteBuf, FromUtf8, ToUtf8;
    ReadBufBack(ToUtf8(s), rest);
    Utf8Back(s);
  }
}
