/** Where every byte of a stored record comes from, said of the record alone. */
module RecordLayout {
  import opened Bytes
  import opened Outcomes
  import opened DataModel
  import opened RecordFormat
  import opened RoundTrip

  // ---------------------------------------------------------------- digits

  lemma DivideTwice(v: nat, a: nat, b: nat, ab: nat)
    requires a > 0 && b > 0 && ab == a * b && ab > 0
    ensures v / a / b == v / ab
  {
    var q, r := v / ab, v % ab;
    DivisionIs(v, ab, q, r);
    var k, m := r / a, b * q;
    SmallQuotient(r, a, b, ab, k);
    Distribute(a, b, q, k, m, ab);
    QuotientIs(v, a, m + k, r % a, ab * q, a * k, r);
    QuotientUnique(m + k, b, q, k);
  }

  lemma DivisionIs(v: nat, n: nat, q: nat, r: nat)
    requires n > 0 && q == v / n && r == v % n
    ensures v == n * q + r && r < n
  {
  }

  lemma QuotientIs(v: nat, a: nat, q: nat, rest: nat, high: nat, low: nat, r: nat)
    requires a > 0 && rest < a && v == high + r && r == low + rest && a * q == high + low
    ensures v / a == q
  {
    QuotientUnique(v, a, q, rest);
  }

  lemma Distribute(a: nat, b: nat, q: nat, k: nat, m: nat, ab: nat)
    requires m == b * q && ab == a * b
    ensures a * (m + k) == ab * q + a * k
  {
  }

  lemma MulGrows(a: nat, x: nat, y: nat)
    ensures x <= y ==> a * x <= a * y
  {
  }

  lemma QuotientUnique(v: nat, a: nat, q: nat, r: nat)
    requires a > 0 && v == a * q + r && r < a
    ensures v / a == q
  {
    var p := v / a;
    assert v == a * p + v % a;
    MulGrows(a, p + 1, q);
    MulGrows(a, q + 1, p);
  }

  lemma SmallQuotient(r: nat, a: nat, b: nat, ab: nat, k: nat)
    requires a > 0 && ab == a * b && r < ab && k == r / a
    ensures k < b && r == a * k + r % a
  {
    MulGrows(a, b, k);
  }

  lemma {:induction false} Pow256Positive(k: nat)
    ensures Pow256(k) > 0
  {
    if k > 0 { Pow256Positive(k - 1); }
  }

  /** Byte `k` of a byte string is its digit of that place in the number they hold. */
  lemma {:induction false} ByteIsDigit(d: Data, k: nat)
    requires k < |d|
    ensures Pow256(k) > 0 && d[k] == Value(d) / Pow256(k) % 256
  {
    Pow256Positive(k);
    if k > 0 {
      ByteIsDigit(d[1..], k - 1);
      Pow256Positive(k - 1);
      assert Value(d) / 256 == Value(d[1..]);
      DivideTwice(Value(d), 256, Pow256(k - 1), Pow256(k));
    }
  }

  lemma {:induction false} ValueOfConcat(a: Data, b: Data)
    ensures Value(a + b) == Value(a) + Pow256(|a|) * Value(b)
  {
    if a == [] {
      assert a + b == b;
    } else {
      ValueOfConcat(a[1..], b);
      assert (a + b)[1..] == a[1..] + b;
      assert Pow256(|a|) * Value(b) == 256 * (Pow256(|a| - 1) * Value(b));
    }
  }

  lemma {:induction false} ValueOfZeros(n: nat)
    ensures Value(Zeros(n)) == 0
  {
    if n > 0 {
      assert Zeros(n)[1..] == Zeros(n - 1);
      ValueOfZeros(n - 1);
    }
  }

  // ---------------------------------------------------------------- the bitmap

  function TwoTo(n: nat): (p: nat)
    ensures p > 0
  {
    if n == 0 then 1 else 2 * TwoTo(n - 1)
  }

  lemma {:induction false} BitIsDigit(b: nat, k: nat)
    ensures TestBit(b, k) <==> b / TwoTo(k) % 2 == 1
  {
    if k > 0 {
      BitIsDigit(b / 2, k - 1);
      DivideTwice(b, 2, TwoTo(k - 1), TwoTo(k));
    }
  }

  /** Bitmap bit `i`: bit `i % 8` of byte `i / 8`. */
  predicate BitSet(e: Data, i: nat)
    requires i / 8 < |e|
  {
    e[i / 8] / TwoTo(i % 8) % 2 == 1
  }

  /** The bitmap is the fewest bytes that have a bit for each column; a bit is set exactly for a null,
      and the bits past the last column are clear. */
  ghost predicate BitmapIs(columns: seq<Column>, record: Record, e: Data, size: nat)
    requires |columns| <= |record|
  {
    && 8 * size >= |columns| && (forall m: nat :: 8 * m >= |columns| ==> size <= m)
    && size <= |e|
    && forall i :: 0 <= i < 8 * size ==> (BitSet(e, i) <==> i < |columns| && record[i].Null?)
  }

  lemma BitmapLaidOut(columns: seq<Column>, record: Record, e: Data)
    requires AllFit(columns, record) && e == Encoded(columns, record)
    ensures BitmapIs(columns, record, e, BitmapSize(columns))
  {
    EncodedLength(columns, record);
    var size := BitmapSize(columns);
    forall i | 0 <= i < 8 * size ensures BitSet(e, i) <==> i < |columns| && record[i].Null? {
      BitmapBits(columns, record, |columns|, i);
      assert e[i / 8] == Bitmap(columns, record, |columns|)[i / 8];
      BitIsDigit(e[i / 8], i % 8);
    }
  }

  // ---------------------------------------------------------------- fixed-length values

  /** Bytes of a value of a fixed-length type; none for the other types. */
  function Width(t: PrimitiveDataType): nat {
    match t
    case IntType => 4
    case BigIntType => 8
    case BooleanType => 1
    case DecimalType(_, _) => 16
    case DateTimeType => 8
    case FloatType => 8
    case Varchar(_) => 0
    case BlobType(_) => 0
    case Unknown => 0
  }

  predicate FixedType(t: PrimitiveDataType) { Width(t) > 0 }

  /** Bytes that the non-null fixed-length values before column `i` take. */
  function FixedBefore(columns: seq<Column>, record: Record, i: nat): nat
    requires i <= |columns| && i <= |record|
  {
    if i == 0 then 0
    else FixedBefore(columns, record, i - 1) + if record[i - 1].Null? then 0 else Width(columns[i - 1].dataType)
  }

  /** The number a fixed-length value is stored as: two's complement for integers and instants, the 64
      bits of a float, and for a decimal the scale from bit 16 on, the sign in bit 31 and the magnitude
      above. */
  function StoredNumber(v: DataValue): nat
    requires IsFixedValue(v)
  {
    match v
    case Int(i) => if i < 0 then i + 0x1_0000_0000 else i
    case BigInt(i) => if i < 0 then i + 0x1_0000_0000_0000_0000 else i
    case DateTime(i) => if i < 0 then i + 0x1_0000_0000_0000_0000 else i
    case Boolean(b) => if b then 1 else 0
    case Float(bits) => bits
    case Decimal(d) => d.scale * 0x1_0000 + (if d.negative then 0x8000_0000 else 0) + d.mantissa * 0x1_0000_0000
  }

  lemma FixedNumber(v: DataValue)
    requires IsFixedValue(v)
    ensures Value(FixedBytes(v)) == StoredNumber(v)
  {
    Widths();
    match v
    case Int(i) => ValueOfLE(Unsigned32(i), 4);
    case BigInt(i) => ValueOfLE(Unsigned64(i), 8);
    case DateTime(i) => ValueOfLE(Unsigned64(i), 8);
    case Float(bits) => ValueOfLE(bits, 8);
    case Boolean(b) => assert FixedBytes(v)[1..] == [];
    case Decimal(d) => DecimalNumberIs(d);
  }

  lemma DecimalNumberIs(d: DecimalNumber)
    ensures Value(DecimalBytes(d)) ==
            d.scale * 0x1_0000 + (if d.negative then 0x8000_0000 else 0) + d.mantissa * 0x1_0000_0000
  {
    Widths();
    ValueOfLE(d.mantissa, 12);
    var sign: Byte := if d.negative then 128 else 0;
    ValueOfConcat([0, 0, d.scale, sign], LE(d.mantissa, 12));
    FourBytes(0, 0, d.scale, sign);
  }

  lemma FourBytes(a: Byte, b: Byte, c: Byte, d: Byte)
    ensures Value([a, b, c, d]) == a + 0x100 * b + 0x1_0000 * c + 0x100_0000 * d
  {
    assert [a, b, c, d][1..] == [b, c, d] && [b, c, d][1..] == [c, d] && [c, d][1..] == [d] && [d][1..] == [];
    assert Value([d]) == d;
    assert Value([c, d]) == c + 256 * d;
  }

  /** The bytes from `at` on hold a number, least significant byte first. */
  ghost predicate HoldsNumber(e: Data, at: nat, n: nat, width: nat) {
    && at + width <= |e|
    && forall k :: 0 <= k < width ==> Pow256(k) > 0 && e[at + k] == n / Pow256(k) % 256
  }

  lemma NumberInPlace(e: Data, at: nat, d: Data)
    requires HasBytes(e, at, d)
    ensures HoldsNumber(e, at, Value(d), |d|)
  {
    forall k | 0 <= k < |d| ensures Pow256(k) > 0 && e[at + k] == Value(d) / Pow256(k) % 256 {
      ByteIsDigit(d, k);
      assert e[at..at + |d|][k] == e[at + k];
    }
  }

  lemma FixedFieldIs(c: Column, v: DataValue)
    requires Fits(c, v)
    ensures |FixedField(c, v)| == if v.Null? then 0 else Width(c.dataType)
    ensures !v.Null? && FixedType(c.dataType) ==> IsFixedValue(v) && Value(FixedField(c, v)) == StoredNumber(v)
  {
    if !v.Null? && FixedType(c.dataType) {
      PaddedNumber(v, Width(c.dataType) - FixedLength(v), FixedField(c, v));
    }
  }

  lemma PaddedNumber(v: DataValue, pad: nat, d: Data)
    requires IsFixedValue(v) && d == FixedBytes(v) + Zeros(pad)
    ensures Value(d) == StoredNumber(v)
  {
    FixedNumber(v);
    ValueOfConcat(FixedBytes(v), Zeros(pad));
    ValueOfZeros(pad);
  }

  lemma {:induction false} FixedTotals(columns: seq<Column>, record: Record, i: nat)
    requires AllFit(columns, record) && i <= |columns|
    ensures Total(FixedFields(columns, record)[..i]) == FixedBefore(columns, record, i)
  {
    if i > 0 {
      FixedTotals(columns, record, i - 1);
      TotalPrefix(FixedFields(columns, record), i - 1);
      NextFixed(columns, record, i - 1);
    }
  }

  lemma NextFixed(columns: seq<Column>, record: Record, i: nat)
    requires AllFit(columns, record) && i < |columns|
    ensures FixedBefore(columns, record, i + 1) == FixedBefore(columns, record, i) + |FixedFields(columns, record)[i]|
  {
    FixedFieldIs(columns[i], record[i]);
  }

  // ---------------------------------------------------------------- variable-length values

  /** Bytes that the non-null texts and blobs before column `i` take with their lengths. */
  function VariableBefore(columns: seq<Column>, record: Record, i: nat): nat
    requires i <= |columns| && i <= |record|
  {
    if i == 0 then 0
    else
      VariableBefore(columns, record, i - 1) +
      if FixedType(columns[i - 1].dataType) then 0
      else match record[i - 1] case Text(t) => 4 + |t| case Blob(b) => 4 + |b| case _ => 0
  }

  lemma VariableFieldIs(c: Column, v: DataValue)
    requires Fits(c, v)
    ensures |VariableField(c, v)| ==
            if FixedType(c.dataType) then 0 else match v case Text(t) => 4 + |t| case Blob(b) => 4 + |b| case _ => 0
    ensures !v.Null? && !FixedType(c.dataType) ==> v.Text? || v.Blob?
  {
  }

  lemma {:induction false} VariableTotals(columns: seq<Column>, record: Record, i: nat)
    requires AllFit(columns, record) && i <= |columns|
    ensures Total(VariableFields(columns, record)[..i]) == VariableBefore(columns, record, i)
  {
    if i > 0 {
      VariableTotals(columns, record, i - 1);
      TotalPrefix(VariableFields(columns, record), i - 1);
      NextVariable(columns, record, i - 1);
    }
  }

  lemma NextVariable(columns: seq<Column>, record: Record, i: nat)
    requires AllFit(columns, record) && i < |columns|
    ensures VariableBefore(columns, record, i + 1) ==
            VariableBefore(columns, record, i) + |VariableFields(columns, record)[i]|
  {
    VariableFieldIs(columns[i], record[i]);
  }

  /** A length of four bytes, and the payload behind it. */
  ghost predicate HoldsPayload(e: Data, at: nat, payload: Data) {
    && HoldsNumber(e, at, |payload| % 0x1_0000_0000, 4)
    && at + 4 + |payload| <= |e| && e[at + 4..at + 4 + |payload|] == payload
  }

  lemma PayloadInPlace(e: Data, at: nat, c: Column, v: DataValue)
    requires Fits(c, v) && !v.Null? && !FixedType(c.dataType) && HasBytes(e, at, VariableField(c, v))
    ensures HoldsPayload(e, at, if v.Text? then v.utf8 else v.bytes)
  {
    var p := Payload(v);
    var length := LE(|p| % U32_LIMIT, 4);
    Widths();
    ValueOfLE(|p| % U32_LIMIT, 4);
    TailInPlace(e, at, length, p);
    HeadInPlace(e, at, length, p);
    NumberInPlace(e, at, length);
  }

  lemma HeadInPlace(e: Data, o: nat, head: Data, tail: Data)
    requires HasBytes(e, o, head + tail)
    ensures HasBytes(e, o, head)
  {
    var whole := e[o..o + |head + tail|];
    assert whole[..|head|] == head;
    forall k | 0 <= k < |head| ensures e[o..o + |head|][k] == whole[..|head|][k] {}
  }

  // ---------------------------------------------------------------- the whole record

  /** Value `v` stored for column `c`, among the fixed-length values or among the texts and blobs. */
  ghost predicate FieldIs(c: Column, v: DataValue, e: Data, fixedAt: nat, variableAt: nat) {
    match v
    case Null => true
    case Text(t) => FixedType(c.dataType) || HoldsPayload(e, variableAt, t)
    case Blob(b) => FixedType(c.dataType) || HoldsPayload(e, variableAt, b)
    case _ => HoldsNumber(e, fixedAt, StoredNumber(v), Width(c.dataType))
  }

  /** Field `i` of a stored record, with `fixedAt` and `variableAt` the starts of the two regions. */
  ghost predicate Placed(columns: seq<Column>, record: Record, e: Data, fixedAt: nat, variableAt: nat, i: nat)
    requires i < |columns| && i < |record|
  {
    FieldIs(columns[i], record[i], e, fixedAt + FixedBefore(columns, record, i),
            variableAt + VariableBefore(columns, record, i))
  }

  /** A stored record is the null bitmap, then the fixed-length values in column order, then the texts
      and blobs in column order, each behind its length, and nothing else. */
  lemma RecordLaidOut(columns: seq<Column>, record: Record, e: Data, size: nat, variableAt: nat)
    requires AllFit(columns, record) && e == Encoded(columns, record) && size == BitmapSize(columns)
    requires variableAt == size + FixedBefore(columns, record, |columns|)
    ensures BitmapIs(columns, record, e, size)
    ensures |e| == variableAt + VariableBefore(columns, record, |columns|)
    ensures forall i :: 0 <= i < |columns| ==> Placed(columns, record, e, size, variableAt, i)
  {
    BitmapLaidOut(columns, record, e);
    RegionsLaidOut(columns, record, e, size, variableAt);
    forall i | 0 <= i < |columns| ensures Placed(columns, record, e, size, variableAt, i) {
      PlacedAt(columns, record, e, size, variableAt, i);
    }
  }

  lemma PlacedAt(columns: seq<Column>, record: Record, e: Data, size: nat, variableAt: nat, i: nat)
    requires AllFit(columns, record) && e == Encoded(columns, record) && size == BitmapSize(columns) && i < |columns|
    requires variableAt == size + FixedBefore(columns, record, |columns|)
    ensures Placed(columns, record, e, size, variableAt, i)
  {
    var fixedAt, here := size + FixedBefore(columns, record, i), variableAt + VariableBefore(columns, record, i);
    FieldPlaced(columns, record, e, size, variableAt, i, fixedAt, here);
    PlacedThere(columns, record, e, size, variableAt, i, fixedAt, here);
  }

  lemma PlacedThere(columns: seq<Column>, record: Record, e: Data, size: nat, variableAt: nat, i: nat, fixedAt: nat,
                    here: nat)
    requires i < |columns| && i < |record| && FieldIs(columns[i], record[i], e, fixedAt, here)
    requires fixedAt == size + FixedBefore(columns, record, i)
    requires here == variableAt + VariableBefore(columns, record, i)
    ensures Placed(columns, record, e, size, variableAt, i)
  {
  }

  lemma RegionsLaidOut(columns: seq<Column>, record: Record, e: Data, size: nat, variableAt: nat)
    requires AllFit(columns, record) && e == Encoded(columns, record) && size == BitmapSize(columns)
    requires variableAt == size + FixedBefore(columns, record, |columns|)
    ensures variableAt == size + Total(FixedFields(columns, record))
    ensures |e| == variableAt + VariableBefore(columns, record, |columns|)
  {
    var fixed, variable := FixedFields(columns, record), VariableFields(columns, record);
    EncodedLength(columns, record);
    FixedTotals(columns, record, |columns|);
    VariableTotals(columns, record, |columns|);
    assert fixed[..|columns|] == fixed && variable[..|columns|] == variable;
  }

  lemma FieldLaidOut(c: Column, v: DataValue, e: Data, fixedAt: nat, variableAt: nat)
    requires Fits(c, v) && HasBytes(e, fixedAt, FixedField(c, v)) && HasBytes(e, variableAt, VariableField(c, v))
    ensures FieldIs(c, v, e, fixedAt, variableAt)
  {
    FixedFieldIs(c, v);
    VariableFieldIs(c, v);
    if !v.Null? {
      if FixedType(c.dataType) {
        NumberInPlace(e, fixedAt, FixedField(c, v));
      } else {
        PayloadInPlace(e, variableAt, c, v);
      }
    }
  }

  lemma FieldPlaced(columns: seq<Column>, record: Record, e: Data, size: nat, variableAt: nat, i: nat, fixedAt: nat,
                    here: nat)
    requires AllFit(columns, record) && e == Encoded(columns, record) && size == BitmapSize(columns) && i < |columns|
    requires variableAt == size + FixedBefore(columns, record, |columns|)
    requires fixedAt == size + FixedBefore(columns, record, i)
    requires here == variableAt + VariableBefore(columns, record, i)
    ensures FieldIs(columns[i], record[i], e, fixedAt, here)
  {
    OffsetsAre(columns, record, e, size, variableAt, i, fixedAt, here);
    FieldsAtOffsets(columns, record, e, i, fixedAt, here);
    FieldLaidOut(columns[i], record[i], e, fixedAt, here);
  }

  lemma OffsetsAre(columns: seq<Column>, record: Record, e: Data, size: nat, variableAt: nat, i: nat, fixedAt: nat,
                   here: nat)
    requires AllFit(columns, record) && e == Encoded(columns, record) && size == BitmapSize(columns) && i < |columns|
    requires variableAt == size + FixedBefore(columns, record, |columns|)
    requires fixedAt == size + FixedBefore(columns, record, i)
    requires here == variableAt + VariableBefore(columns, record, i)
    ensures fixedAt == BitmapSize(columns) + Total(FixedFields(columns, record)[..i])
    ensures here == BitmapSize(columns) + Total(FixedFields(columns, record))
                    + Total(VariableFields(columns, record)[..i])
  {
    RegionsLaidOut(columns, record, e, size, variableAt);
    FixedTotals(columns, record, i);
    VariableTotals(columns, record, i);
  }

  lemma FieldsAtOffsets(columns: seq<Column>, record: Record, e: Data, i: nat, fixedAt: nat, here: nat)
    requires AllFit(columns, record) && e == Encoded(columns, record) && i < |columns|
    requires fixedAt == BitmapSize(columns) + Total(FixedFields(columns, record)[..i])
    requires here == BitmapSize(columns) + Total(FixedFields(columns, record))
                     + Total(VariableFields(columns, record)[..i])
    ensures HasBytes(e, fixedAt, FixedField(columns[i], record[i]))
    ensures HasBytes(e, here, VariableField(columns[i], record[i]))
  {
    FieldAt(Bitmap(columns, record, |columns|), FixedFields(columns, record), VariableFields(columns, record), e, i,
            fixedAt, here);
  }

  // ---------------------------------------------------------------- reading numbers

  /** What the bytes of a fixed-length value are read as: the value stored as the number they hold, any
      byte but zero for true, and scales above 28 cut down. */
  lemma FixedValueIs(t: PrimitiveDataType, b: Data)
    requires FixedType(t) && |b| == Width(t)
    ensures t.FixedSize() == Some(|b|)
    ensures match t
            case IntType => FixedValue(t, b).Int? && StoredNumber(FixedValue(t, b)) == Value(b)
            case BigIntType => FixedValue(t, b).BigInt? && StoredNumber(FixedValue(t, b)) == Value(b)
            case DateTimeType => FixedValue(t, b).DateTime? && StoredNumber(FixedValue(t, b)) == Value(b)
            case FloatType => FixedValue(t, b).Float? && StoredNumber(FixedValue(t, b)) == Value(b)
            case BooleanType => FixedValue(t, b) == Boolean(b[0] != 0)
            case DecimalType(_, _) =>
              && FixedValue(t, b).Decimal?
              && var d := FixedValue(t, b).decimal;
                 && d.mantissa == Value(b[4..]) && (d.negative <==> b[3] >= 128)
                 && d.scale == if b[2] % 32 > 28 then 28 else b[2] % 32
            case _ => true
  {
    Widths();
    ValueBound(b);
  }
}
