/** Bytes and Go's fixed-width integer conversions. */
module Words {

  datatype Option<+T> = None | Some(value: T)

  type byte = x: int | 0 <= x < 0x100
  type Bytes = seq<byte>

  const TWO31 := 0x8000_0000
  const TWO32 := 0x1_0000_0000
  const TWO63 := 0x8000_0000_0000_0000
  const TWO64 := 0x1_0000_0000_0000_0000

  /** Go's amd64 allocation limit: no slice is longer than this. */
  const MAX_LEN := 0x1_0000_0000_0000

  /** The conversions `int(uint64)` and `int32(uint64)`: keep the low bits, reinterpret the top one as a sign. */
  function Int64(v: int): int {
    var w := v % TWO64;
    if w < TWO63 then w else w - TWO64
  }

  function Int32(v: int): int {
    var w := v % TWO32;
    if w < TWO31 then w else w - TWO32
  }
}
