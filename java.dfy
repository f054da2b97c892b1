/** The slice of Java's runtime this data-access layer relies on: boxed values passed as
    query parameters or returned as result rows, fixed-width integers and `String.valueOf`. */
module Java {
  import Decimal

  const MinInt32: int := -0x8000_0000
  const MaxInt32: int := 0x7fff_ffff
  const MinInt64: int := -0x8000_0000_0000_0000
  const MaxInt64: int := 0x7fff_ffff_ffff_ffff

  /** Java `int`. */
  newtype int32 = x: int | -0x8000_0000 <= x < 0x8000_0000

  /** Java `long`. */
  newtype int64 = x: int | -0x8000_0000_0000_0000 <= x < 0x8000_0000_0000_0000

  /** `Math.min`. */
  function Min(a: int, b: int): int {
    if a <= b then a else b
  }

  /** Two's-complement truncation to 32 bits: Java's `int` arithmetic and `(int)` casts. */
  function Wrap32(x: int): (r: int32)
    ensures MinInt32 <= x <= MaxInt32 ==> r as int == x
    ensures (r as int - x) % 0x1_0000_0000 == 0
  {
    var m := (x - MinInt32) % 0x1_0000_0000;
    (m + MinInt32) as int32
  }

  /** A Java object as seen by this layer. `Other` is any other class, with the text its
      `toString` returns. */
  datatype Value =
    | Null
    | Integer(i: int32)
    | Long(l: int64)
    | Bool(b: bool)
    | Str(s: string)
    | Other(className: string, shown: string)

  /** `String.valueOf(v)`, which string concatenation applies to each operand. */
  function ValueOf(v: Value): string {
    match v
    case Null => "null"
    case Integer(i) => Decimal.IntToText(i as int)
    case Long(l) => Decimal.IntToText(l as int)
    case Bool(b) => if b then "true" else "false"
    case Str(s) => s
    case Other(_, shown) => shown
  }
}
