/** Where the encoding of a value ends: reading looks at nothing after it, and fails if any of it is missing. */
module Framing {
  import opened Ids
  import opened Floats
  import opened Bytes
  import opened AnyValue
  import opened Codec

  /** If `r` is a success, `s` is the same one with more left over. */
  predicate Extends<T(==)>(r: Read<T>, s: Read<T>, more: seq<Byte>) {
    r.Ok? ==> s == Ok(r.value, r.rest + more)
  }

  lemma TailMore(b: seq<Byte>, more: seq<Byte>, n: nat)
    requires n <= |b|
    ensures (b + more)[..n] == b[..n] && (b + more)[n..] == b[n..] + more
    ensures n < |b| ==> (b + more)[n] == b[n]
  {
  }

  lemma {:induction false} VarMore(b: seq<Byte>, more: seq<Byte>, num: nat, len: nat, width: nat)
    requires width > 0
    ensures Extends(ReadVar(b, num, len, width), ReadVar(b + more, num, len, width), more)
  {
    hide AddBits;
    if b != [] {
      TailMore(b, more, 1);
      TailMore(b, more, 0);
      if b[0] >= 0x80 && len + 7 <= 70 { VarMore(b[1..], more, AddBits(num, b[0] % 0x80, len, width), len + 7, width); }
    }
  }

  lemma BufMore(b: seq<Byte>, more: seq<Byte>)
    ensures Extends(ReadBuf(b), ReadBuf(b + more), more)
  {
    hide ReadVar;
    VarMore(b, more, 0, 0, 32);
    match ReadVar(b, 0, 0, 32)
    case Err(_) =>
    case Ok(n, rest) => if n <= |rest| { TailMore(rest, more, n); }
  }

  lemma StringMore(b: seq<Byte>, more: seq<Byte>)
    ensures Extends(ReadString(b), ReadString(b + more), more)
  {
    hide ReadBuf, FromUtf8;
    BufMore(b, more);
  }

  lemma NumberMore(tag: Byte, b: seq<Byte>, more: seq<Byte>)
    ensures Extends(DecodeNumber(tag, b), DecodeNumber(tag, b + more), more)
  {
    hide ReadVar, F32AsF64, AsSigned, FromBytes;
    if |b| >= 8 { TailMore(b, more, 8); }
    if |b| >= 4 { TailMore(b, more, 4); }
    if b != [] {
      TailMore(b, more, 0);
      TailMore(b, more, 1);
      VarMore(b[1..], more, b[0] % 0x40, 6, 64);
    }
  }

  /** What follows a value has no part in reading it. */
  lemma {:induction false} DecodeMore(b: seq<Byte>, more: seq<Byte>)
    ensures Extends(Decode(b), Decode(b + more), more)
    decreases |b|, 0, 0
  {
    hide ReadVar, ReadString, ReadBuf, DecodeNumber, DecodeAll, DecodeEntries;
    if b != [] {
      var tag, rest := b[0], b[1..];
      TailMore(b, more, 0);
      TailMore(b, more, 1);
      NumberMore(tag, rest, more);
      StringMore(rest, more);
      BufMore(rest, more);
      VarMore(rest, more, 0, 0, 64);
      var count := ReadVar(rest, 0, 0, 64);
      if count.Ok? {
        AllMore(count.value, count.rest, more);
        EntriesMore(count.value, count.rest, more, []);
      }
    }
  }

  lemma {:induction false} AllMore(n: nat, b: seq<Byte>, more: seq<Byte>)
    ensures Extends(DecodeAll(n, b), DecodeAll(n, b + more), more)
    decreases |b|, 1, n
  {
    hide Decode;
    if n > 0 {
      DecodeMore(b, more);
      if Decode(b).Ok? { AllMore(n - 1, Decode(b).rest, more); }
    }
  }

  lemma {:induction false} EntriesMore(n: nat, b: seq<Byte>, more: seq<Byte>, acc: seq<Entry>)
    ensures Extends(DecodeEntries(n, b, acc), DecodeEntries(n, b + more, acc), more)
    decreases |b|, 1, n
  {
    hide Decode, ReadString, Insert;
    if n > 0 {
      StringMore(b, more);
      match ReadString(b)
      case Err(_) =>
      case Ok(key, t) =>
        DecodeMore(t, more);
        match Decode(t)
        case Err(_) =>
        case Ok(v, u) => EntriesMore(n - 1, u, more, Insert(acc, key, v));
    }
  }

  /** A value of which bytes are missing at the end is not read. */
  lemma CutShortFails(v: Any, n: nat)
    requires Sized(v) && n < |Encode(v)|
    ensures Decode(Encode(v)[..n]).Err?
  {
    hide Decode, Encode, Sized, Alike;
    var e := Encode(v);
    DecodeEncode(v, []);
    assert e + [] == e == e[..n] + e[n..];
    DecodeMore(e[..n], e[n..]);
  }

  /** A value that begins with no known tag is not read. */
  lemma UnknownTag(b: seq<Byte>)
    ensures b == [] ==> Decode(b) == Err(EndOfBuffer)
    ensures b != [] && !(116 <= b[0] <= 127) ==> Decode(b) == Err(UnexpectedValue)
  {
  }

  // ----- the keys of a map

  function Lookup(entries: seq<Entry>, key: string): Option<Any> {
    if entries == [] then None
    else if entries[0].key == key then Some(entries[0].value)
    else Lookup(entries[1..], key)
  }

  predicate KeysOnce(entries: seq<Entry>) {
    forall i, j :: 0 <= i < j < |entries| ==> entries[i].key != entries[j].key
  }

  /** Of a key that is read twice, the last value is kept; all other keys keep theirs, and no key is there twice. */
  lemma {:induction false} InsertReplaces(entries: seq<Entry>, key: string, value: Any, other: string)
    ensures Lookup(Insert(entries, key, value), other) == if other == key then Some(value) else Lookup(entries, other)
    ensures HasKey(Insert(entries, key, value), other) <==> other == key || HasKey(entries, other)
  {
    var r := Insert(entries, key, value);
    if entries == [] {
      assert r[0].key == key;
    } else if entries[0].key == key {
      HasHead(entries, other);
      HasHead(r, other);
    } else {
      InsertReplaces(entries[1..], key, value, other);
      HasHead(entries, other);
      HasHead(r, other);
      assert r[1..] == Insert(entries[1..], key, value);
    }
  }

  lemma HasHead(entries: seq<Entry>, key: string)
    requires entries != []
    ensures HasKey(entries, key) <==> entries[0].key == key || HasKey(entries[1..], key)
  {
    if HasKey(entries, key) && entries[0].key != key {
      var i :| 0 <= i < |entries| && entries[i].key == key;
      assert entries[1..][i - 1].key == key;
    }
    if HasKey(entries[1..], key) {
      var i :| 0 <= i < |entries[1..]| && entries[1..][i].key == key;
      assert entries[i + 1].key == key;
    }
  }

  lemma {:induction false} InsertOnce(entries: seq<Entry>, key: string, value: Any)
    requires KeysOnce(entries)
    ensures KeysOnce(Insert(entries, key, value))
  {
    if entries != [] && entries[0].key != key {
      var rest, more := entries[1..], Insert(entries[1..], key, value);
      TailOnce(entries);
      InsertOnce(rest, key, value);
      InsertReplaces(rest, key, value, entries[0].key);
      HeadOnce(entries[0], more);
    }
  }

  lemma TailOnce(entries: seq<Entry>)
    requires KeysOnce(entries) && entries != []
    ensures KeysOnce(entries[1..]) && !HasKey(entries[1..], entries[0].key)
  {
    assert forall i :: 0 <= i < |entries[1..]| ==> entries[1..][i] == entries[i + 1];
  }

  lemma HeadOnce(e: Entry, more: seq<Entry>)
    requires KeysOnce(more) && !HasKey(more, e.key)
    ensures KeysOnce([e] + more)
  {
    var r := [e] + more;
    assert forall i :: 0 < i < |r| ==> r[i] == more[i - 1];
  }
}
