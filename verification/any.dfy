/** The JSON-like values that a document stores. */
module AnyValue {
  import opened Ids
  import opened Floats

  /** An integer, or a 64-bit float by its bit pattern. */
  datatype Number = Int(n: I64) | Float(bits: Bits64)

  /** A map is given by its entries in the order in which it is iterated: any order of its keys. */
  datatype Any =
    | Null
    | Undefined
    | Bool(b: bool)
    | Num(num: Number)
    | Str(s: string)
    | Buffer(bytes: seq<Byte>)
    | Array(items: seq<Any>)
    | Map(entries: seq<Entry>)

  datatype Entry = Entry(key: string, value: Any)
}
