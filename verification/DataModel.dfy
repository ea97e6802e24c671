/** Column types, table definitions, data values with their order, and primary keys of records. */
module DataModel {
  import opened Bytes
  import opened Outcomes

  type I32 = x: int | -0x8000_0000 <= x < 0x8000_0000
  type I64 = x: int | -0x8000_0000_0000_0000 <= x < 0x8000_0000_0000_0000

  // ---------------------------------------------------------------- schema

  type U8 = x: int | 0 <= x < 256
  type U16T = x: int | 0 <= x < 0x1_0000
  type U32T = x: int | 0 <= x < 0x1_0000_0000

  datatype PrimitiveDataType =
    | Unknown
    | IntType
    | BigIntType
    | Varchar(length: U16T)
    | BooleanType
    | DecimalType(precision: U8, scale: U8)
    | DateTimeType
    | FloatType
    | BlobType(size: U32T)
  {
    function FixedSize(): Option<nat> {
      match this
      case IntType => Some(4)
      case BigIntType => Some(8)
      case BooleanType => Some(1)
      case DecimalType(_, _) => Some(16)
      case FloatType => Some(8)
      case DateTimeType => Some(8)
      case _ => None
    }

    /** `is_fixed_type` of a column; it also holds of Unknown, which has no fixed size. */
    predicate IsFixedType() { !BlobType? && !Varchar? }
  }

  datatype Column = Column(name: string, dataType: PrimitiveDataType, nullable: bool)

  /** A table, with the column names of its primary key constraint, if any, as they are listed. */
  datatype Table = Table(columns: seq<Column>, primaryKey: Option<seq<string>>)

  // ---------------------------------------------------------------- UTF-8

  predicate Continuation(b: int) { 0x80 <= b < 0xC0 }

  /** Well-formed UTF-8 byte sequences (table 3-7 of the Unicode standard). */
  predicate ValidUtf8(d: Data) {
    if d == [] then true
    else if d[0] < 0x80 then ValidUtf8(d[1..])
    else if 0xC2 <= d[0] < 0xE0 then |d| >= 2 && Continuation(d[1]) && ValidUtf8(d[2..])
    else if 0xE0 <= d[0] < 0xF0 then
      && |d| >= 3 && Continuation(d[1]) && Continuation(d[2])
      && (d[0] == 0xE0 ==> d[1] >= 0xA0) && (d[0] == 0xED ==> d[1] < 0xA0)
      && ValidUtf8(d[3..])
    else if 0xF0 <= d[0] < 0xF5 then
      && |d| >= 4 && Continuation(d[1]) && Continuation(d[2]) && Continuation(d[3])
      && (d[0] == 0xF0 ==> d[1] >= 0x90) && (d[0] == 0xF4 ==> d[1] < 0x90)
      && ValidUtf8(d[4..])
    else false
  }

  type Utf8 = d: Data | ValidUtf8(d) witness []

  // ---------------------------------------------------------------- values

  const MANTISSA_LIMIT: int := U64_LIMIT * U32_LIMIT

  /** A decimal number: sign, power of ten to divide by, 96-bit magnitude. */
  datatype RawDecimal = RawDecimal(negative: bool, scale: int, mantissa: int)

  type DecimalNumber = d: RawDecimal | 0 <= d.scale <= 28 && 0 <= d.mantissa < MANTISSA_LIMIT
    witness RawDecimal(false, 0, 0)

  /** A float is its 64 bits: sign, exponent and fraction, most significant first. */
  type FloatBits = x: int | 0 <= x < 0x1_0000_0000_0000_0000

  datatype DataValue =
    | Null
    | Int(int32: I32)
    | BigInt(int64: I64)
    | Boolean(flag: bool)
    | Float(bits: FloatBits)
    | Text(utf8: Utf8)
    | Blob(bytes: Data)
    | DateTime(instant: I64)
    | Decimal(decimal: DecimalNumber)

  type Record = seq<DataValue>
  type Key = seq<DataValue>

  // ---------------------------------------------------------------- order

  const SIGN_BIT: int := 0x8000_0000_0000_0000
  const INFINITY_BITS: int := 0x7FF0_0000_0000_0000

  /** Floats are ordered by sign and magnitude, both zeros are equal, and all NaNs are equal and
      greater than everything else. */
  function FloatRank(bits: FloatBits): int {
    var magnitude := bits % SIGN_BIT;
    if magnitude > INFINITY_BITS then SIGN_BIT
    else if bits < SIGN_BIT then magnitude
    else -magnitude
  }

  function Pow10(n: nat): nat { if n == 0 then 1 else 10 * Pow10(n - 1) }

  /** The decimal as a multiple of 10 to the power -28. */
  function DecimalRank(d: DecimalNumber): int {
    (if d.negative then -1 else 1) * d.mantissa * Pow10(28 - d.scale)
  }

  /** Values are ordered by variant, then by payload; ranks compared as lists give that order. */
  function Rank(v: DataValue): seq<int> {
    match v
    case Null => [0]
    case Int(i) => [1, i]
    case BigInt(i) => [2, i]
    case Boolean(b) => [3, if b then 1 else 0]
    case Float(f) => [4, FloatRank(f)]
    case Text(t) => [5] + t
    case Blob(b) => [6] + b
    case DateTime(i) => [7, i]
    case Decimal(d) => [8, DecimalRank(d)]
  }

  datatype Ordering = Less | Equal | Greater {
    function Flip(): Ordering {
      match this
      case Less => Greater
      case Equal => Equal
      case Greater => Less
    }
  }

  /** Lexicographic order on lists of numbers. */
  function CompareInts(a: seq<int>, b: seq<int>): Ordering {
    if a == [] then (if b == [] then Equal else Less)
    else if b == [] then Greater
    else if a[0] < b[0] then Less
    else if a[0] > b[0] then Greater
    else CompareInts(a[1..], b[1..])
  }

  function CompareValues(v: DataValue, w: DataValue): Ordering { CompareInts(Rank(v), Rank(w)) }

  /** The derived order of keys: column by column, a prefix before its extensions. */
  function Compare(a: Key, b: Key): Ordering {
    if a == [] then (if b == [] then Equal else Less)
    else if b == [] then Greater
    else
      var first := CompareValues(a[0], b[0]);
      if first != Equal then first else Compare(a[1..], b[1..])
  }

  lemma {:induction false} FlipInts(a: seq<int>, b: seq<int>)
    ensures CompareInts(b, a) == CompareInts(a, b).Flip()
  {
    if a != [] && b != [] { FlipInts(a[1..], b[1..]); }
  }

  lemma {:induction false} Flip(a: Key, b: Key)
    ensures Compare(b, a) == Compare(a, b).Flip()
  {
    if a != [] && b != [] {
      FlipInts(Rank(a[0]), Rank(b[0]));
      Flip(a[1..], b[1..]);
    }
  }

  lemma {:induction false} EqualInts(a: seq<int>, b: seq<int>)
    ensures CompareInts(a, b) == Equal <==> a == b
  {
    if a != [] && b != [] {
      EqualInts(a[1..], b[1..]);
      assert a == [a[0]] + a[1..] && b == [b[0]] + b[1..];
    }
  }

  lemma {:induction false} LessInts(a: seq<int>, b: seq<int>, c: seq<int>)
    requires CompareInts(a, b) == Less && CompareInts(b, c) == Less
    ensures CompareInts(a, c) == Less
  {
    if a != [] && a[0] == b[0] == c[0] { LessInts(a[1..], b[1..], c[1..]); }
  }

  /** The order is transitive and equality in it is a congruence. */
  lemma {:induction false} Transitive(a: Key, b: Key, c: Key)
    requires Compare(a, b) != Greater && Compare(b, c) != Greater
    ensures Compare(a, c) == if Compare(a, b) == Equal then Compare(b, c) else Less
  {
    if a != [] && b != [] && c != [] {
      var x, y, z := Rank(a[0]), Rank(b[0]), Rank(c[0]);
      EqualInts(x, y);
      EqualInts(y, z);
      if CompareInts(x, y) == Equal && CompareInts(y, z) == Equal {
        Transitive(a[1..], b[1..], c[1..]);
      } else if CompareInts(x, y) == Less && CompareInts(y, z) == Less {
        LessInts(x, y, z);
      }
    }
  }

  // ---------------------------------------------------------------- names

  predicate Distinct(names: seq<string>) {
    forall i, j :: 0 <= i < j < |names| ==> names[i] != names[j]
  }

  function Names(columns: seq<Column>): (names: seq<string>)
    ensures |names| == |columns| && forall i :: 0 <= i < |names| ==> names[i] == columns[i].name
  {
    seq(|columns|, i requires 0 <= i < |columns| => columns[i].name)
  }

  /** Index of the first occurrence, or the length. */
  function Position(names: seq<string>, name: string): (i: nat)
    ensures i <= |names|
    ensures i < |names| ==> names[i] == name
    ensures forall j :: 0 <= j < i ==> names[j] != name
    ensures i < |names| <==> name in names
  {
    if names == [] then 0
    else if names[0] == name then 0
    else 1 + Position(names[1..], name)
  }
}
