/** The byte format of a record: null bitmap, fixed-length values, variable-length values. What is
    written for a record, and what reading any bytes gives. */
module RecordFormat {
  import opened Bytes
  import opened Outcomes
  import opened DataModel

  datatype SerializationError =
    | DataTypeMismatch
    | NullValueForNonNullColumnFound
    | NullPrimaryKeyColumnValue
    | PrimaryKeyNotFound

  // ---------------------------------------------------------------- bits

  /** Binary digit `k` of `b`: `b & 1 << k` is not zero. */
  predicate TestBit(b: nat, k: nat) {
    if k == 0 then b % 2 == 1 else TestBit(b / 2, k - 1)
  }

  /** `b | 1 << k`. */
  function WithBit(b: nat, k: nat): nat {
    if k == 0 then b / 2 * 2 + 1 else b % 2 + 2 * WithBit(b / 2, k - 1)
  }

  function Pow2(n: nat): nat { if n == 0 then 1 else 2 * Pow2(n - 1) }

  lemma BelowTwice(b: nat, half: nat)
    requires b < 2 * half
    ensures b / 2 < half && b / 2 * 2 + 1 < 2 * half
  {
  }

  lemma WithBitHalf(b: nat, k: nat)
    requires k > 0
    ensures WithBit(b, k) <= 1 + 2 * WithBit(b / 2, k - 1)
  {
  }

  lemma {:induction false} WithBitBound(b: nat, k: nat, width: nat)
    requires k < width && b < Pow2(width)
    ensures WithBit(b, k) < Pow2(width)
  {
    BelowTwice(b, Pow2(width - 1));
    if k > 0 {
      WithBitBound(b / 2, k - 1, width - 1);
      WithBitHalf(b, k);
    }
  }

  function SetBit(b: Byte, k: nat): Byte
    requires k < 8
  {
    assert Pow2(8) == 256;
    WithBitBound(b, k, 8);
    WithBit(b, k)
  }

  lemma {:induction false} SetThenTest(b: nat, k: nat, j: nat)
    ensures TestBit(WithBit(b, k), j) <==> k == j || TestBit(b, j)
  {
    if k > 0 && j > 0 { SetThenTest(b / 2, k - 1, j - 1); }
  }

  lemma {:induction false} ZeroHasNoBits(j: nat)
    ensures !TestBit(0, j)
  {
    if j > 0 { ZeroHasNoBits(j - 1); }
  }

  // ---------------------------------------------------------------- numbers

  function Unsigned32(i: I32): nat { if i < 0 then i + U32_LIMIT else i }
  function Signed32(n: nat): I32
    requires n < U32_LIMIT
  {
    if n < 0x8000_0000 then n else n - U32_LIMIT
  }
  function Unsigned64(i: I64): nat { if i < 0 then i + U64_LIMIT else i }
  function Signed64(n: nat): I64
    requires n < U64_LIMIT
  {
    if n < SIGN_BIT then n else n - U64_LIMIT
  }

  /** The number in a byte string of the given width. */
  function Number(b: Data, width: nat): (n: nat)
    requires |b| == width
    ensures n < Pow256(width)
  {
    ValueBound(b);
    Value(b)
  }

  function DecimalBytes(d: DecimalNumber): (b: Data)
    ensures |b| == 16
  {
    [0, 0, d.scale, if d.negative then 128 else 0] + LE(d.mantissa, 12)
  }

  function DecimalFrom(b: Data): DecimalNumber
    requires |b| == 16
  {
    Widths();
    var scale := b[2] % 32;
    RawDecimal(b[3] >= 128, if scale > 28 then 28 else scale, Number(b[4..], 12))
  }

  // ---------------------------------------------------------------- writing

  predicate IsFixedValue(v: DataValue) { !v.Null? && !v.Text? && !v.Blob? }

  /** Bytes a fixed-length value takes, by its own variant. */
  function FixedLength(v: DataValue): nat
    requires IsFixedValue(v)
  {
    match v
    case Int(_) => 4
    case Boolean(_) => 1
    case Decimal(_) => 16
    case _ => 8
  }

  function FixedBytes(v: DataValue): (b: Data)
    requires IsFixedValue(v)
    ensures |b| == FixedLength(v)
  {
    match v
    case Int(i) => LE(Unsigned32(i), 4)
    case BigInt(i) => LE(Unsigned64(i), 8)
    case Boolean(b) => [if b then 1 else 0]
    case Float(f) => LE(f, 8)
    case DateTime(i) => LE(Unsigned64(i), 8)
    case Decimal(d) => DecimalBytes(d)
  }

  function Payload(v: DataValue): Data
    requires v.Text? || v.Blob?
  {
    if v.Text? then v.utf8 else v.bytes
  }

  /** The value can be written into the column: no error value and no panic. */
  predicate Fits(c: Column, v: DataValue) {
    match c.dataType.FixedSize()
    case Some(n) => v.Null? || (IsFixedValue(v) && (v.Boolean? || FixedLength(v) == n))
    case None => v.Null? || v.Text? || v.Blob?
  }

  predicate AllFit(columns: seq<Column>, record: Record) {
    |record| >= |columns| && forall i :: 0 <= i < |columns| ==> Fits(columns[i], record[i])
  }

  function FixedField(c: Column, v: DataValue): Data
    requires Fits(c, v)
  {
    match c.dataType.FixedSize()
    case None => []
    case Some(n) => if v.Null? then [] else FixedBytes(v) + Zeros(n - FixedLength(v))
  }

  /** The length goes out as a 32-bit number, whatever the length is. */
  function VariableField(c: Column, v: DataValue): Data
    requires Fits(c, v)
  {
    if v.Null? || c.dataType.FixedSize().Some? then []
    else LE(|Payload(v)| % U32_LIMIT, 4) + Payload(v)
  }

  function BitmapSize(columns: seq<Column>): nat { (|columns| + 7) / 8 }

  /** The bitmap after the first `n` columns. */
  function Bitmap(columns: seq<Column>, record: Record, n: nat): (b: Data)
    requires n <= |columns| <= |record|
    ensures |b| == BitmapSize(columns)
  {
    if n == 0 then Zeros(BitmapSize(columns))
    else
      var b := Bitmap(columns, record, n - 1);
      if record[n - 1].Null? then b[(n - 1) / 8 := SetBit(b[(n - 1) / 8], (n - 1) % 8)] else b
  }

  function FixedFields(columns: seq<Column>, record: Record): (fields: seq<Data>)
    requires AllFit(columns, record)
    ensures |fields| == |columns|
  {
    seq(|columns|, i requires 0 <= i < |columns| => FixedField(columns[i], record[i]))
  }

  function VariableFields(columns: seq<Column>, record: Record): (fields: seq<Data>)
    requires AllFit(columns, record)
    ensures |fields| == |columns|
  {
    seq(|columns|, i requires 0 <= i < |columns| => VariableField(columns[i], record[i]))
  }

  function Encoded(columns: seq<Column>, record: Record): Data
    requires AllFit(columns, record)
  {
    Bitmap(columns, record, |columns|) + Flatten(FixedFields(columns, record))
        + Flatten(VariableFields(columns, record))
  }

  // ---------------------------------------------------------------- reading

  predicate IsNullAt(bytes: Data, i: nat)
    requires i / 8 < |bytes|
  {
    TestBit(bytes[i / 8], i % 8)
  }

  /** Where the variable-length values start, from the first `n` columns. */
  function VariableStart(columns: seq<Column>, bytes: Data, n: nat): Outcome<nat, SerializationError>
    requires n <= |columns| && BitmapSize(columns) <= |bytes|
  {
    if n == 0 then Done(BitmapSize(columns))
    else
      match VariableStart(columns, bytes, n - 1)
      case Failed(e) => Failed(e)
      case Panicked => Panicked
      case Done(offset) =>
        if IsNullAt(bytes, n - 1) || !columns[n - 1].dataType.IsFixedType() then Done(offset)
        else
          match columns[n - 1].dataType.FixedSize()
          case None => Panicked
          case Some(size) => Done(offset + size)
  }

  /** The two read cursors. */
  datatype Cursors = Cursors(fixed: nat, variable: nat)

  /** Length stored at the variable cursor; a negative one addresses past any buffer. */
  function StoredLength(bytes: Data, at: nat): Outcome<nat, SerializationError> {
    if at + 4 > |bytes| then Panicked
    else
      Widths();
      var size := Signed32(Number(bytes[at..at + 4], 4));
      if size < 0 then Panicked else Done(size)
  }

  /** Moving past one column. */
  function Skip(c: Column, isNull: bool, bytes: Data, at: Cursors): Outcome<Cursors, SerializationError> {
    if isNull then Done(at)
    else if c.dataType.IsFixedType() then
      match c.dataType.FixedSize()
      case None => Panicked
      case Some(size) => Done(at.(fixed := at.fixed + size))
    else
      match StoredLength(bytes, at.variable)
      case Done(size) => Done(at.(variable := at.variable + 4 + size))
      case _ => Panicked
  }

  /** The cursors at column `n`. */
  function CursorsAt(columns: seq<Column>, bytes: Data, n: nat): Outcome<Cursors, SerializationError>
    requires n <= |columns| && BitmapSize(columns) <= |bytes|
  {
    if n == 0 then
      match VariableStart(columns, bytes, |columns|)
      case Done(start) => Done(Cursors(BitmapSize(columns), start))
      case _ => Panicked
    else
      match CursorsAt(columns, bytes, n - 1)
      case Done(at) => Skip(columns[n - 1], IsNullAt(bytes, n - 1), bytes, at)
      case _ => Panicked
  }

  function FixedValue(t: PrimitiveDataType, b: Data): DataValue
    requires t.FixedSize() == Some(|b|)
  {
    Widths();
    match t
    case IntType => Int(Signed32(Number(b, 4)))
    case BigIntType => BigInt(Signed64(Number(b, 8)))
    case BooleanType => Boolean(b[0] != 0)
    case DecimalType(_, _) => Decimal(DecimalFrom(b))
    case DateTimeType => DateTime(Signed64(Number(b, 8)))
    case FloatType => Float(Number(b, 8))
  }

  /** Bytes that are not UTF-8 make reading a text panic. */
  function VariableValue(t: PrimitiveDataType, b: Data): Outcome<DataValue, SerializationError> {
    match t
    case BlobType(_) => Done(Blob(b))
    case Varchar(_) => if ValidUtf8(b) then Done(Text(b)) else Panicked
    case _ => Panicked
  }

  /** The value of one non-null column. */
  function ReadColumn(c: Column, bytes: Data, at: Cursors): Outcome<DataValue, SerializationError> {
    match c.dataType.FixedSize()
    case Some(size) =>
      if at.fixed + size > |bytes| then Panicked
      else Done(FixedValue(c.dataType, bytes[at.fixed..at.fixed + size]))
    case None =>
      match StoredLength(bytes, at.variable)
      case Done(size) =>
        if at.variable + 4 + size > |bytes| then Panicked
        else VariableValue(c.dataType, bytes[at.variable + 4..at.variable + 4 + size])
      case _ => Panicked
  }

  /** The values of the first `n` columns. */
  function DecodedPrefix(columns: seq<Column>, bytes: Data, n: nat): (r: Outcome<Record, SerializationError>)
    requires n <= |columns| && BitmapSize(columns) <= |bytes|
    ensures r.Done? ==> |r.value| == n && CursorsAt(columns, bytes, n).Done?
  {
    if n == 0 then
      if CursorsAt(columns, bytes, 0).Done? then Done([]) else Panicked
    else
      match DecodedPrefix(columns, bytes, n - 1)
      case Failed(e) => Failed(e)
      case Panicked => Panicked
      case Done(values) =>
        if IsNullAt(bytes, n - 1) then
          if columns[n - 1].nullable then Done(values + [Null]) else Failed(NullValueForNonNullColumnFound)
        else
          match ReadColumn(columns[n - 1], bytes, CursorsAt(columns, bytes, n - 1).value)
          case Done(v) => Done(values + [v])
          case _ => Panicked
  }

  /** Reading a whole record. */
  function Decoded(columns: seq<Column>, bytes: Data): Outcome<Record, SerializationError> {
    if |bytes| < BitmapSize(columns) then Panicked else DecodedPrefix(columns, bytes, |columns|)
  }
}
