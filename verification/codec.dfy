/** The binary codec of values, and what a value becomes when it is written and read again. */
module Codec {
  import opened Ids
  import opened Seqs
  import opened Floats
  import opened Bytes
  import opened Text
  import opened AnyValue

  // ----- numbers

  function AsI64(num: Number): Option<I64> {
    match num
    case Int(n) => Some(n)
    case Float(b) =>
      var n := F64AsInt(b);
      if Equal(Unpack64(IntAsF64(n)), Unpack64(b)) then Some(n) else None
  }

  function AsF64(num: Number): Option<Bits64> {
    match num
    case Int(n) => if F64AsInt(IntAsF64(n)) == n then Some(IntAsF64(n)) else None
    case Float(b) => Some(b)
  }

  predicate SameNumber(x: Number, y: Number) {
    match (x, y)
    case (Int(m), Int(n)) => m == n
    case (Float(a), Float(b)) => Equal(Unpack64(a), Unpack64(b))
    case _ => AsF64(x).Some? && AsF64(y).Some? && Equal(Unpack64(AsF64(x).value), Unpack64(AsF64(y).value))
  }

  /** The tag says which of four forms is used; it is the first one that loses nothing. */
  function EncodeNumber(num: Number): (r: seq<Byte>)
    ensures |r| > 0
  {
    match num
    case Int(n) =>
      if -0x7FFF_FFFF <= n <= 0x7FFF_FFFF then [125] + WriteSigned(n)
      else if F32AsInt(IntAsF32(n)) == n then [124] + ToBytes(IntAsF32(n), 4)
      else if F64AsInt(IntAsF64(n)) == n then [123] + ToBytes(IntAsF64(n), 8)
      else [122] + ToBytes(n % 0x1_0000_0000_0000_0000, 8)
    case Float(b) =>
      if Equal(Unpack64(F32AsF64(F64AsF32(b))), Unpack64(b)) then [124] + ToBytes(F64AsF32(b), 4)
      else [123] + ToBytes(b, 8)
  }

  function DecodeNumber(tag: Byte, b: seq<Byte>): (r: Read<Number>)
    ensures r.Ok? ==> |r.rest| <= |b|
  {
    if tag == 125 then
      match ReadSigned(b) case Err(e) => Err(e) case Ok(n, rest) => Ok(Int(n), rest)
    else if tag == 124 then
      match ReadFixed(b, 4) case Err(e) => Err(e) case Ok(v, rest) => Ok(Float(F32AsF64(v % 0x1_0000_0000)), rest)
    else
      match ReadFixed(b, 8)
      case Err(e) => Err(e)
      case Ok(v, rest) =>
        if tag == 123 then Ok(Float(v % 0x1_0000_0000_0000_0000), rest) else Ok(Int(AsSigned(v)), rest)
  }

  /** What reading a written number gives. */
  function Reread(num: Number): Number {
    match num
    case Int(n) =>
      if -0x7FFF_FFFF <= n <= 0x7FFF_FFFF then num
      else if F32AsInt(IntAsF32(n)) == n then Float(F32AsF64(IntAsF32(n)))
      else if F64AsInt(IntAsF64(n)) == n then Float(IntAsF64(n))
      else num
    case Float(b) =>
      if Equal(Unpack64(F32AsF64(F64AsF32(b))), Unpack64(b)) then Float(F32AsF64(F64AsF32(b))) else num
  }

  lemma NumberBack(num: Number, rest: seq<Byte>)
    ensures var e := EncodeNumber(num);
      122 <= e[0] <= 125 && DecodeNumber(e[0], e[1..] + rest) == Ok(Reread(num), rest)
  {
    hide IntAsF32, IntAsF64, F32AsInt, F64AsInt, F32AsF64, F64AsF32, Unpack64, Equal, ToBytes, WriteSigned, Pow2;
    hide ReadSigned, ReadFixed;
    Power32();
    match num
    case Int(n) =>
      if -0x7FFF_FFFF <= n <= 0x7FFF_FFFF { ReadSignedBack(n, rest); }
      ReadFixedBack(IntAsF32(n), 4, rest);
      ReadFixedBack(IntAsF64(n), 8, rest);
      ReadFixedBack(n % 0x1_0000_0000_0000_0000, 8, rest);
    case Float(b) =>
      ReadFixedBack(F64AsF32(b), 4, rest);
      ReadFixedBack(b, 8, rest);
  }

  /** Every integer comes back as itself, as a float or not; so does the greatest one, which no float is equal to. */
  lemma IntComesBack(n: I64)
    ensures AsI64(Reread(Int(n))) == Some(n) && SameNumber(Int(n), Reread(Int(n)))
  {
    hide IntAsF32, IntAsF64, F32AsF64, Unpack64, Unpack32, OfInt, ToInt;
    OfIntIsFloat(n);
    if F32AsInt(IntAsF32(n)) == n {
      BothFloats(n);
      WideningIsExact(IntAsF32(n));
    }
    EqualItself(OfInt(n, 53));
    assert OfInt(n, 53).Fin? by { OfIntIsFinite(n); }
  }

  lemma EqualItself(v: Real)
    ensures Equal(v, v) <==> !v.NaN?
  {
  }

  lemma OfIntIsFinite(n: I64)
    ensures OfInt(n, 53).Fin? && OfInt(n, 24).Fin?
  {
  }

  /** A float comes back equal, and a NaN comes back bit by bit. */
  lemma FloatComesBack(b: Bits64)
    ensures if Unpack64(b).NaN? then Reread(Float(b)) == Float(b) else SameNumber(Float(b), Reread(Float(b)))
  {
    hide F32AsF64, F64AsF32, Unpack64;
    EqualItself(Unpack64(b));
  }

  // ----- values

  function Encode(v: Any): (r: seq<Byte>)
    ensures |r| > 0
  {
    match v
    case Undefined => [127]
    case Null => [126]
    case Bool(b) => [if b then 120 else 121]
    case Str(s) => [119] + WriteString(s)
    case Num(num) => EncodeNumber(num)
    case Array(items) => [117] + WriteVar(|items|) + EncodeAll(items)
    case Map(entries) => [118] + WriteVar(|entries|) + EncodeEntries(entries)
    case Buffer(bytes) => [116] + WriteBuf(bytes)
  }

  function EncodeAll(items: seq<Any>): seq<Byte> {
    if items == [] then [] else Encode(items[0]) + EncodeAll(items[1..])
  }

  function EncodeEntries(entries: seq<Entry>): seq<Byte> {
    if entries == [] then []
    else WriteString(entries[0].key) + Encode(entries[0].value) + EncodeEntries(entries[1..])
  }

  /** A map with one more entry, which replaces one of the same key. */
  function Insert(entries: seq<Entry>, key: string, value: Any): seq<Entry> {
    if entries == [] then [Entry(key, value)]
    else if entries[0].key == key then [Entry(key, value)] + entries[1..]
    else [entries[0]] + Insert(entries[1..], key, value)
  }

  function Decode(b: seq<Byte>): (r: Read<Any>)
    ensures r.Ok? ==> |r.rest| < |b|
    decreases |b|, 0, 0
  {
    if b == [] then Err(EndOfBuffer)
    else
      var tag, rest := b[0], b[1..];
      if tag == 127 then Ok(Undefined, rest)
      else if tag == 126 then Ok(Null, rest)
      else if 122 <= tag <= 125 then
        match DecodeNumber(tag, rest) case Err(e) => Err(e) case Ok(num, t) => Ok(Num(num), t)
      else if tag == 121 then Ok(Bool(false), rest)
      else if tag == 120 then Ok(Bool(true), rest)
      else if tag == 119 then
        match ReadString(rest) case Err(e) => Err(e) case Ok(s, t) => Ok(Str(s), t)
      else if tag == 118 then
        match ReadVar(rest, 0, 0, 64)
        case Err(e) => Err(e)
        case Ok(n, t) => (match DecodeEntries(n, t, []) case Err(e) => Err(e) case Ok(es, u) => Ok(Map(es), u))
      else if tag == 117 then
        match ReadVar(rest, 0, 0, 64)
        case Err(e) => Err(e)
        case Ok(n, t) => (match DecodeAll(n, t) case Err(e) => Err(e) case Ok(vs, u) => Ok(Array(vs), u))
      else if tag == 116 then
        match ReadBuf(rest) case Err(e) => Err(e) case Ok(bytes, t) => Ok(Buffer(bytes), t)
      else Err(UnexpectedValue)
  }

  function DecodeAll(n: nat, b: seq<Byte>): (r: Read<seq<Any>>)
    ensures r.Ok? ==> |r.rest| <= |b|
    decreases |b|, 1, n
  {
    if n == 0 then Ok([], b)
    else
      match Decode(b)
      case Err(e) => Err(e)
      case Ok(v, t) => (match DecodeAll(n - 1, t) case Err(e) => Err(e) case Ok(vs, u) => Ok([v] + vs, u))
  }

  function DecodeEntries(n: nat, b: seq<Byte>, acc: seq<Entry>): (r: Read<seq<Entry>>)
    ensures r.Ok? ==> |r.rest| <= |b|
    decreases |b|, 1, n
  {
    if n == 0 then Ok(acc, b)
    else
      match ReadString(b)
      case Err(e) => Err(e)
      case Ok(key, t) =>
        match Decode(t)
        case Err(e) => Err(e)
        case Ok(v, u) => DecodeEntries(n - 1, u, Insert(acc, key, v))
  }

  // ----- what comes back

  /** Lengths are within what is read back, and a map has each key once. */
  predicate Sized(v: Any) {
    match v
    case Str(s) => Len8(s) < 0x1_0000_0000
    case Buffer(bytes) => |bytes| < 0x1_0000_0000
    case Array(items) => |items| < 0x1_0000_0000_0000_0000 && forall i :: 0 <= i < |items| ==> Sized(items[i])
    case Map(entries) =>
      && |entries| < 0x1_0000_0000_0000_0000
      && (forall i :: 0 <= i < |entries| ==> Len8(entries[i].key) < 0x1_0000_0000 && Sized(entries[i].value))
      && (forall i, j :: 0 <= i < j < |entries| ==> entries[i].key != entries[j].key)
    case _ => true
  }

  predicate AlikeNumber(x: Number, y: Number) {
    SameNumber(x, y) || x == y
  }

  /** Equal but for the form of numbers. */
  predicate Alike(v: Any, w: Any) {
    match (v, w)
    case (Num(x), Num(y)) => AlikeNumber(x, y)
    case (Array(s), Array(t)) => |s| == |t| && forall i :: 0 <= i < |s| ==> Alike(s[i], t[i])
    case (Map(s), Map(t)) =>
      |s| == |t| && forall i :: 0 <= i < |s| ==> s[i].key == t[i].key && Alike(s[i].value, t[i].value)
    case _ => v == w
  }

  predicate AllAlike(s: seq<Any>, t: seq<Any>) {
    |s| == |t| && forall i :: 0 <= i < |s| ==> Alike(s[i], t[i])
  }

  lemma NumBack(num: Number, rest: seq<Byte>)
    ensures Decode(Encode(Num(num)) + rest) == Ok(Num(Reread(num)), rest) && Alike(Num(num), Num(Reread(num)))
  {
    hide EncodeNumber, DecodeNumber, Reread, SameNumber, AsI64;
    var e := EncodeNumber(num);
    NumberBack(num, rest);
    assert (e + rest)[0] == e[0] && (e + rest)[1..] == e[1..] + rest;
    match num
    case Int(n) => IntComesBack(n);
    case Float(b) => FloatComesBack(b);
  }

  /** Reading a written value uses up exactly what was written, and gives an equal value. */
  lemma {:induction false} DecodeEncode(v: Any, rest: seq<Byte>)
    requires Sized(v)
    ensures var r := Decode(Encode(v) + rest); r.Ok? && r.rest == rest && Alike(v, r.value)
  {
    hide EncodeNumber, DecodeNumber, ReadString, WriteString, ReadBuf, WriteBuf, ReadVar, WriteVar, Sized, Alike;
    hide EncodeAll, DecodeAll;
    match v
    case Num(num) => NumBack(num, rest);
    case Str(s) => StrBack(s, rest);
    case Buffer(bytes) => BufferBack(bytes, rest);
    case Array(items) => ArrayBack(items, rest);
    case Map(entries) => MapBack(entries, rest);
    case Null => ConsTail(126, rest); AlikeItself(v);
    case Undefined => ConsTail(127, rest); AlikeItself(v);
    case Bool(b) => ConsTail(if b then 120 else 121, rest); AlikeItself(v);
  }

  lemma AlikeItself(v: Any)
    requires !v.Num? && !v.Array? && !v.Map?
    ensures Alike(v, v)
  {
  }

  lemma StrBack(s: string, rest: seq<Byte>)
    requires Sized(Str(s))
    ensures Decode(Encode(Str(s)) + rest) == Ok(Str(s), rest) && Alike(Str(s), Str(s))
  {
    hide ReadString, WriteString;
    ReadStringBack(s, rest);
    Assoc([119], WriteString(s), rest);
    ConsTail(119, WriteString(s) + rest);
  }

  lemma BufferBack(bytes: seq<Byte>, rest: seq<Byte>)
    requires Sized(Buffer(bytes))
    ensures Decode(Encode(Buffer(bytes)) + rest) == Ok(Buffer(bytes), rest) && Alike(Buffer(bytes), Buffer(bytes))
  {
    hide ReadBuf, WriteBuf;
    ReadBufBack(bytes, rest);
    Assoc([116], WriteBuf(bytes), rest);
    ConsTail(116, WriteBuf(bytes) + rest);
  }

  lemma CountBack(n: nat, rest: seq<Byte>)
    requires n < 0x1_0000_0000_0000_0000
    ensures ReadVar(WriteVar(n) + rest, 0, 0, 64) == Ok(n, rest)
  {
    hide ReadVar, WriteVar, Pow2;
    Power32();
    ReadVarBack(n, rest, 0, 0, 64);
  }

  lemma ArrayBack(items: seq<Any>, rest: seq<Byte>)
    requires Sized(Array(items))
    ensures var r := Decode(Encode(Array(items)) + rest); r.Ok? && r.rest == rest && Alike(Array(items), r.value)
    decreases items, 1
  {
    hide ReadVar, WriteVar, DecodeAll, EncodeAll;
    var body := EncodeAll(items);
    CountBack(|items|, body + rest);
    assert ([117] + WriteVar(|items|) + body) + rest == [117] + (WriteVar(|items|) + (body + rest));
    ConsTail(117, WriteVar(|items|) + (body + rest));
    AllBack(items, rest);
  }

  lemma {:induction false} AllBack(items: seq<Any>, rest: seq<Byte>)
    requires forall i :: 0 <= i < |items| ==> Sized(items[i])
    ensures var r := DecodeAll(|items|, EncodeAll(items) + rest);
      r.Ok? && r.rest == rest && AllAlike(items, r.value)
    decreases items, 0
  {
    hide Encode, Decode, Sized, Alike;
    if items == [] {
      assert [] + rest == rest;
    } else {
      var t := EncodeAll(items[1..]) + rest;
      Assoc(Encode(items[0]), EncodeAll(items[1..]), rest);
      DecodeEncode(items[0], t);
      AllBack(items[1..], rest);
    }
  }

  predicate AlikeEntries(s: seq<Entry>, t: seq<Entry>) {
    |s| == |t| && forall i :: 0 <= i < |s| ==> s[i].key == t[i].key && Alike(s[i].value, t[i].value)
  }

  predicate HasKey(entries: seq<Entry>, key: string) {
    exists i :: 0 <= i < |entries| && entries[i].key == key
  }

  lemma {:induction false} InsertNew(entries: seq<Entry>, key: string, value: Any)
    requires !HasKey(entries, key)
    ensures Insert(entries, key, value) == entries + [Entry(key, value)]
  {
    if entries != [] {
      assert forall i :: 0 <= i < |entries[1..]| ==> entries[1..][i] == entries[i + 1];
      InsertNew(entries[1..], key, value);
      HeadTail(entries);
      Assoc([entries[0]], entries[1..], [Entry(key, value)]);
    }
  }

  predicate SizedEntries(entries: seq<Entry>) {
    && (forall i :: 0 <= i < |entries| ==> Len8(entries[i].key) < 0x1_0000_0000 && Sized(entries[i].value))
    && (forall i, j :: 0 <= i < j < |entries| ==> entries[i].key != entries[j].key)
  }

  lemma MapBack(entries: seq<Entry>, rest: seq<Byte>)
    requires Sized(Map(entries))
    ensures var r := Decode(Encode(Map(entries)) + rest); r.Ok? && r.rest == rest && Alike(Map(entries), r.value)
    decreases entries, 1
  {
    hide ReadVar, WriteVar, DecodeEntries, EncodeEntries;
    var body := EncodeEntries(entries);
    CountBack(|entries|, body + rest);
    assert ([118] + WriteVar(|entries|) + body) + rest == [118] + (WriteVar(|entries|) + (body + rest));
    ConsTail(118, WriteVar(|entries|) + (body + rest));
    EntriesBack(entries, rest, []);
  }

  lemma {:induction false} EntriesBack(entries: seq<Entry>, rest: seq<Byte>, acc: seq<Entry>)
    requires SizedEntries(entries) && forall i :: 0 <= i < |entries| ==> !HasKey(acc, entries[i].key)
    ensures var r := DecodeEntries(|entries|, EncodeEntries(entries) + rest, acc);
      && r.Ok? && r.rest == rest && |r.value| == |acc| + |entries|
      && r.value[..|acc|] == acc && AlikeEntries(entries, r.value[|acc|..])
    decreases entries, 0
  {
    hide Encode, Decode, Sized, Alike, ReadString, WriteString, Insert;
    if entries == [] {
      assert [] + rest == rest;
    } else {
      var key, value, later := entries[0].key, entries[0].value, entries[1..];
      var t := EncodeEntries(later) + rest;
      assert EncodeEntries(entries) + rest == WriteString(key) + (Encode(value) + t);
      ReadStringBack(key, Encode(value) + t);
      DecodeEncode(value, t);
      var w := Decode(Encode(value) + t).value;
      InsertNew(acc, key, w);
      KeysLater(entries, acc, w);
      EntriesBack(later, rest, acc + [Entry(key, w)]);
      var r := DecodeEntries(|later|, t, acc + [Entry(key, w)]).value;
      TwoParts(r, acc, Entry(key, w));
    }
  }

  lemma KeysLater(entries: seq<Entry>, acc: seq<Entry>, w: Any)
    requires entries != [] && SizedEntries(entries) && forall i :: 0 <= i < |entries| ==> !HasKey(acc, entries[i].key)
    ensures SizedEntries(entries[1..])
    ensures forall i :: 0 <= i < |entries[1..]| ==> !HasKey(acc + [Entry(entries[0].key, w)], entries[1..][i].key)
  {
    hide Sized;
    var later, more := entries[1..], acc + [Entry(entries[0].key, w)];
    assert forall i :: 0 <= i < |later| ==> later[i] == entries[i + 1];
    forall i | 0 <= i < |later| ensures !HasKey(more, later[i].key) {
      assert !HasKey(acc, entries[i + 1].key);
    }
  }

  lemma TwoParts(r: seq<Entry>, acc: seq<Entry>, e: Entry)
    requires |r| > |acc| && r[..|acc| + 1] == acc + [e]
    ensures r[..|acc|] == acc && r[|acc|..] == [e] + r[|acc| + 1..]
  {
    assert r[|acc|] == (acc + [e])[|acc|];
    assert forall i :: 0 <= i < |acc| ==> r[i] == (acc + [e])[i];
  }

  /** Every integer survives: read back as an integer, it is the one that was written. */
  lemma IntThroughBytes(n: I64, rest: seq<Byte>)
    ensures var r := Decode(Encode(Num(Int(n))) + rest);
      r.Ok? && r.rest == rest && r.value.Num? && AsI64(r.value.num) == Some(n)
  {
    hide Encode, Decode, AsI64, Reread;
    NumBack(Int(n), rest);
    IntComesBack(n);
  }

  // ----- the program

  class Writer {
    var buf: seq<Byte>

    constructor ()
      ensures buf == []
    {
      buf := [];
    }

    method Write(b: seq<Byte>)
      modifies this
      ensures buf == old(buf) + b
    {
      buf := buf + b;
    }

    method WriteCount(n: nat)
      modifies this
      ensures buf == old(buf) + WriteVar(n)
    {
      var m := n;
      while m >= 0x80
        invariant buf + WriteVar(m) == old(buf) + WriteVar(n)
      {
        Assoc(buf, [0x80 + m % 0x80], WriteVar(m / 0x80));
        buf := buf + [0x80 + m % 0x80];
        m := m / 0x80;
      }
      buf := buf + [m];
    }

    method EncodeTo(v: Any)
      modifies this
      ensures buf == old(buf) + Encode(v)
      decreases v
    {
      hide EncodeNumber, WriteString, WriteBuf, WriteVar;
      match v
      case Undefined => Write([127]);
      case Null => Write([126]);
      case Bool(b) => Write([if b then 120 else 121]);
      case Str(s) => Write([119] + WriteString(s));
      case Num(num) => Write(EncodeNumber(num));
      case Buffer(bytes) => Write([116] + WriteBuf(bytes));
      case Array(items) =>
        Write([117]);
        WriteCount(|items|);
        ghost var start := buf;
        for i := 0 to |items|
          invariant buf + EncodeAll(items[i..]) == start + EncodeAll(items)
        {
          Assoc(buf, Encode(items[i]), EncodeAll(items[i + 1..]));
          EncodeTo(items[i]);
        }
        Assoc(old(buf), [117] + WriteVar(|items|), EncodeAll(items));
        Assoc(old(buf), [117], WriteVar(|items|));
      case Map(entries) =>
        Write([118]);
        WriteCount(|entries|);
        ghost var start := buf;
        for i := 0 to |entries|
          invariant buf + EncodeEntries(entries[i..]) == start + EncodeEntries(entries)
        {
          var key, value := entries[i].key, entries[i].value;
          assert entries[i..][1..] == entries[i + 1..];
          Assoc(buf, WriteString(key) + Encode(value), EncodeEntries(entries[i + 1..]));
          Assoc(buf, WriteString(key), Encode(value));
          Write(WriteString(key));
          EncodeTo(value);
        }
        Assoc(old(buf), [118] + WriteVar(|entries|), EncodeEntries(entries));
        Assoc(old(buf), [118], WriteVar(|entries|));
    }
  }

  datatype Outcome<+T> = Done(value: T) | Failed(error: Error)

  class Reader {
    var rest: seq<Byte>

    constructor (buf: seq<Byte>)
      ensures rest == buf
    {
      rest := buf;
    }

    /** Moves past what was read. */
    method Take<T>(r: Read<T>) returns (o: Outcome<T>)
      modifies this
      ensures match r
        case Ok(v, t) => o == Done(v) && rest == t
        case Err(e) => o == Failed(e) && rest == old(rest)
    {
      match r
      case Ok(v, t) =>
        rest := t;
        o := Done(v);
      case Err(e) =>
        o := Failed(e);
    }

    method DecodeFrom() returns (o: Outcome<Any>)
      modifies this
      ensures match Decode(old(rest))
        case Ok(v, t) => o == Done(v) && rest == t
        case Err(e) => o == Failed(e)
      decreases |rest|, 0
    {
      hide DecodeNumber, ReadString, ReadBuf, ReadVar, DecodeAll, DecodeEntries;
      if rest == [] { return Failed(EndOfBuffer); }
      var tag := rest[0];
      rest := rest[1..];
      if tag == 127 { return Done(Undefined); }
      if tag == 126 { return Done(Null); }
      if 122 <= tag <= 125 {
        var num := Take(DecodeNumber(tag, rest));
        return if num.Done? then Done(Num(num.value)) else Failed(num.error);
      }
      if tag == 121 { return Done(Bool(false)); }
      if tag == 120 { return Done(Bool(true)); }
      if tag == 119 {
        var s := Take(ReadString(rest));
        return if s.Done? then Done(Str(s.value)) else Failed(s.error);
      }
      if tag == 118 {
        var n := Take(ReadVar(rest, 0, 0, 64));
        if n.Failed? { return Failed(n.error); }
        var entries := EntriesFrom(n.value);
        return if entries.Done? then Done(Map(entries.value)) else Failed(entries.error);
      }
      if tag == 117 {
        var n := Take(ReadVar(rest, 0, 0, 64));
        if n.Failed? { return Failed(n.error); }
        var items := AllFrom(n.value);
        return if items.Done? then Done(Array(items.value)) else Failed(items.error);
      }
      if tag == 116 {
        var bytes := Take(ReadBuf(rest));
        return if bytes.Done? then Done(Buffer(bytes.value)) else Failed(bytes.error);
      }
      return Failed(UnexpectedValue);
    }

    method AllFrom(n: nat) returns (o: Outcome<seq<Any>>)
      modifies this
      ensures match DecodeAll(n, old(rest))
        case Ok(vs, t) => o == Done(vs) && rest == t
        case Err(e) => o == Failed(e)
      decreases |rest|, 1
    {
      hide Decode;
      var vs: seq<Any> := [];
      ghost var start := rest;
      assert forall ws: seq<Any> :: [] + ws == ws;
      for i := 0 to n
        invariant |rest| <= |start|
        invariant DecodeAll(n, start) == match DecodeAll(n - i, rest)
          case Ok(ws, u) => Ok(vs + ws, u)
          case Err(e) => Err(e)
      {
        var v := DecodeFrom();
        if v.Failed? { return Failed(v.error); }
        PrefixAssoc(vs, v.value);
        vs := vs + [v.value];
      }
      assert vs + [] == vs;
      return Done(vs);
    }

    method EntriesFrom(n: nat) returns (o: Outcome<seq<Entry>>)
      modifies this
      ensures match DecodeEntries(n, old(rest), [])
        case Ok(es, t) => o == Done(es) && rest == t
        case Err(e) => o == Failed(e)
      decreases |rest|, 1
    {
      hide Decode, ReadString, Insert;
      var es: seq<Entry> := [];
      ghost var start := rest;
      for i := 0 to n
        invariant |rest| <= |start| && DecodeEntries(n, start, []) == DecodeEntries(n - i, rest, es)
      {
        var key := Take(ReadString(rest));
        if key.Failed? { return Failed(key.error); }
        var v := DecodeFrom();
        if v.Failed? { return Failed(v.error); }
        es := Insert(es, key.value, v.value);
      }
      return Done(es);
    }
  }

  lemma PrefixAssoc(vs: seq<Any>, v: Any)
    ensures forall ws: seq<Any> :: vs + ([v] + ws) == (vs + [v]) + ws
  {
    forall ws: seq<Any> ensures vs + ([v] + ws) == (vs + [v]) + ws { Assoc(vs, [v], ws); }
  }
}
