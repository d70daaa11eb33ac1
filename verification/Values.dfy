/** Column values. */
module Values {
  import opened Bytes

  type I32 = n: int | -0x8000_0000 <= n < 0x8000_0000
  type I64 = n: int | -0x8000_0000_0000_0000 <= n < 0x8000_0000_0000_0000

  /** Floats by their bit pattern, strings by their bytes. */
  datatype Value = Null | Int(n: I64) | Float(bits: U64) | Str(text: seq<Byte>) | Bool(b: bool) | Date(d: I32)
}
