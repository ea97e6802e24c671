/** Reading what was written gives the record back exactly when its values have the column types. */
module RoundTrip {
  import opened Bytes
  import opened Outcomes
  import opened DataModel
  import opened RecordFormat

  /** Value and column type agree; the length of a variable-length value fits a signed 32-bit number. */
  predicate Matches(t: PrimitiveDataType, v: DataValue) {
    match t
    case IntType => v.Int?
    case BigIntType => v.BigInt?
    case BooleanType => v.Boolean?
    case DecimalType(_, _) => v.Decimal?
    case DateTimeType => v.DateTime?
    case FloatType => v.Float?
    case Varchar(_) => v.Text? && |v.utf8| < 0x8000_0000
    case BlobType(_) => v.Blob? && |v.bytes| < 0x8000_0000
    case Unknown => false
  }

  predicate Storable(columns: seq<Column>, record: Record) {
    && |record| == |columns|
    && forall i :: 0 <= i < |columns| ==> StorableAt(columns[i], record[i])
  }

  predicate StorableAt(c: Column, v: DataValue) {
    if v.Null? then c.nullable else Matches(c.dataType, v)
  }

  lemma StorableFits(columns: seq<Column>, record: Record)
    requires Storable(columns, record)
    ensures AllFit(columns, record)
  {
    forall i | 0 <= i < |columns| ensures Fits(columns[i], record[i]) {
      assert StorableAt(columns[i], record[i]);
    }
  }

  // ---------------------------------------------------------------- one field

  lemma DecimalRoundTrip(d: DecimalNumber)
    ensures DecimalFrom(DecimalBytes(d)) == d
  {
    Widths();
    assert DecimalBytes(d)[4..] == LE(d.mantissa, 12);
    ValueOfLE(d.mantissa, 12);
  }

  lemma NumberRoundTrip(v: nat, width: nat)
    requires v < Pow256(width)
    ensures Number(LE(v, width), width) == v
  {
    ValueOfLE(v, width);
  }

  lemma FixedRoundTrip(c: Column, v: DataValue)
    requires c.dataType.FixedSize().Some? && Matches(c.dataType, v)
    ensures Fits(c, v) && |FixedField(c, v)| == c.dataType.FixedSize().value
    ensures FixedValue(c.dataType, FixedField(c, v)) == v
  {
    assert FixedField(c, v) == FixedBytes(v);
    Widths();
    match v
    case Int(i) => NumberRoundTrip(Unsigned32(i), 4);
    case BigInt(i) => NumberRoundTrip(Unsigned64(i), 8);
    case DateTime(i) => NumberRoundTrip(Unsigned64(i), 8);
    case Float(f) => NumberRoundTrip(f, 8);
    case Decimal(d) => DecimalRoundTrip(d);
    case _ =>
  }

  predicate HasBytes(e: Data, o: nat, y: Data) {
    o + |y| <= |e| && e[o..o + |y|] == y
  }

  lemma StoredLengthRead(e: Data, at: nat, n: nat, payload: Data)
    requires n < 0x8000_0000 && HasBytes(e, at, LE(n, 4) + payload)
    ensures StoredLength(e, at) == Done(n)
  {
    Widths();
    var y := LE(n, 4) + payload;
    assert e[at..at + 4] == e[at..at + |y|][..4] == y[..4] == LE(n, 4);
    NumberRoundTrip(n, 4);
  }

  lemma LengthIsStored(c: Column, v: DataValue, e: Data, at: nat)
    requires Fits(c, v) && StorableAt(c, v) && !v.Null? && !c.dataType.IsFixedType()
    requires HasBytes(e, at, VariableField(c, v))
    ensures StoredLength(e, at) == Done(|Payload(v)|)
  {
    assert Matches(c.dataType, v) && |Payload(v)| < 0x8000_0000;
    StoredLengthRead(e, at, |Payload(v)|, Payload(v));
  }

  /** Skipping a written field moves the cursors past it. */
  lemma SkipsField(c: Column, v: DataValue, e: Data, at: Cursors)
    requires Fits(c, v) && StorableAt(c, v)
    requires HasBytes(e, at.variable, VariableField(c, v))
    ensures Skip(c, v.Null?, e, at) == Done(Cursors(at.fixed + |FixedField(c, v)|, at.variable + |VariableField(c, v)|))
  {
    if !v.Null? {
      if c.dataType.IsFixedType() {
        FixedRoundTrip(c, v);
      } else {
        LengthIsStored(c, v, e, at.variable);
      }
    }
  }

  /** Reading a written field gives its value. */
  lemma ReadsField(c: Column, v: DataValue, e: Data, at: Cursors)
    requires Fits(c, v) && StorableAt(c, v) && !v.Null?
    requires HasBytes(e, at.fixed, FixedField(c, v)) && HasBytes(e, at.variable, VariableField(c, v))
    ensures ReadColumn(c, e, at) == Done(v)
  {
    if c.dataType.FixedSize().Some? {
      FixedRoundTrip(c, v);
    } else {
      ReadsPayload(c, v, e, at);
    }
  }

  lemma ReadsPayload(c: Column, v: DataValue, e: Data, at: Cursors)
    requires Fits(c, v) && StorableAt(c, v) && !v.Null? && c.dataType.FixedSize().None?
    requires HasBytes(e, at.variable, VariableField(c, v))
    ensures ReadColumn(c, e, at) == Done(v)
  {
    LengthIsStored(c, v, e, at.variable);
    TailInPlace(e, at.variable, LE(|Payload(v)| % U32_LIMIT, 4), Payload(v));
  }

  lemma TailInPlace(e: Data, o: nat, head: Data, tail: Data)
    requires HasBytes(e, o, head + tail)
    ensures HasBytes(e, o + |head|, tail)
  {
    var whole := e[o..o + |head + tail|];
    assert whole[|head|..] == tail;
    forall k | 0 <= k < |tail| ensures e[o + |head|..o + |head| + |tail|][k] == whole[|head|..][k] {}
  }

  // ---------------------------------------------------------------- the null bitmap

  lemma {:induction false} BitmapBits(columns: seq<Column>, record: Record, n: nat, i: nat)
    requires n <= |columns| <= |record| && i < 8 * BitmapSize(columns)
    ensures TestBit(Bitmap(columns, record, n)[i / 8], i % 8) <==> i < n && record[i].Null?
  {
    if n == 0 {
      ZeroHasNoBits(i % 8);
    } else {
      BitmapBits(columns, record, n - 1, i);
      if record[n - 1].Null? && (n - 1) / 8 == i / 8 {
        SetThenTest(Bitmap(columns, record, n - 1)[i / 8], (n - 1) % 8, i % 8);
      }
    }
  }

  lemma NullIsMarked(columns: seq<Column>, record: Record, i: nat)
    requires AllFit(columns, record) && i < |columns|
    ensures IsNullAt(Encoded(columns, record), i) <==> record[i].Null?
  {
    BitmapBits(columns, record, |columns|, i);
  }

  // ---------------------------------------------------------------- where each field lies

  /** The cursors before each column when the fields have been written one after the other. */
  ghost function Path(bitmapSize: nat, fixed: seq<Data>, variable: seq<Data>, n: nat): Cursors
    requires |fixed| == |variable| && n <= |fixed|
  {
    Cursors(bitmapSize + Total(fixed[..n]), bitmapSize + Total(fixed) + Total(variable[..n]))
  }

  lemma FieldsInPlace(bitmap: Data, fixed: seq<Data>, variable: seq<Data>, e: Data, i: nat)
    requires |fixed| == |variable| && i < |fixed| && e == bitmap + Flatten(fixed) + Flatten(variable)
    ensures HasBytes(e, Path(|bitmap|, fixed, variable, i).fixed, fixed[i])
    ensures HasBytes(e, Path(|bitmap|, fixed, variable, i).variable, variable[i])
  {
    var at := Path(|bitmap|, fixed, variable, i);
    FieldAt(bitmap, fixed, variable, e, i, at.fixed, at.variable);
  }

  lemma FieldAt(bitmap: Data, fixed: seq<Data>, variable: seq<Data>, e: Data, i: nat, fixedAt: nat, variableAt: nat)
    requires |fixed| == |variable| && i < |fixed| && e == bitmap + Flatten(fixed) + Flatten(variable)
    requires fixedAt == |bitmap| + Total(fixed[..i])
    requires variableAt == |bitmap| + Total(fixed) + Total(variable[..i])
    ensures HasBytes(e, fixedAt, fixed[i]) && HasBytes(e, variableAt, variable[i])
  {
    FlattenSlice(fixed, i);
    Inside(bitmap, Flatten(fixed), Flatten(variable), Total(fixed[..i]), fixed[i], e, fixedAt);
    FlattenSlice(variable, i);
    assert e == bitmap + Flatten(fixed) + Flatten(variable) + [];
    Inside(bitmap + Flatten(fixed), Flatten(variable), [], Total(variable[..i]), variable[i], e, variableAt);
  }

  lemma Inside(a: Data, whole: Data, tail: Data, o: nat, y: Data, e: Data, at: nat)
    requires HasBytes(whole, o, y) && e == a + whole + tail && at == |a| + o
    ensures HasBytes(e, at, y)
  {
    assert e[at..at + |y|] == whole[o..o + |y|];
  }

  /** If each column is skipped from one point of the path to the next, the cursors follow it. */
  lemma {:induction false} CursorsFollow(columns: seq<Column>, e: Data, fixed: seq<Data>, variable: seq<Data>, n: nat)
    requires |fixed| == |variable| == |columns| && BitmapSize(columns) <= |e| && n <= |columns|
    requires VariableStart(columns, e, |columns|) == Done(BitmapSize(columns) + Total(fixed))
    requires forall i :: 0 <= i < |columns| ==>
               Skip(columns[i], IsNullAt(e, i), e, Path(BitmapSize(columns), fixed, variable, i))
               == Done(Path(BitmapSize(columns), fixed, variable, i + 1))
    ensures CursorsAt(columns, e, n) == Done(Path(BitmapSize(columns), fixed, variable, n))
  {
    if n > 0 {
      CursorsFollow(columns, e, fixed, variable, n - 1);
    }
  }

  /** The length a column adds to the fixed region. */
  function FixedShare(c: Column, isNull: bool): nat {
    if isNull || c.dataType.FixedSize().None? then 0 else c.dataType.FixedSize().value
  }

  lemma {:induction false} VariableStartIs(columns: seq<Column>, e: Data, fixed: seq<Data>, n: nat, start: nat)
    requires |fixed| == |columns| && BitmapSize(columns) <= |e| && n <= |columns|
    requires forall i :: 0 <= i < |columns| ==> |fixed[i]| == FixedShare(columns[i], IsNullAt(e, i))
    requires forall i :: 0 <= i < |columns| ==> IsNullAt(e, i) || !columns[i].dataType.Unknown?
    requires start == BitmapSize(columns) + Total(fixed[..n])
    ensures VariableStart(columns, e, n) == Done(start)
  {
    if n > 0 {
      TotalBefore(fixed, n, BitmapSize(columns), start);
      VariableStartIs(columns, e, fixed, n - 1, start - |fixed[n - 1]|);
      VariableStartNext(columns, e, |fixed[n - 1]|, n, start - |fixed[n - 1]|);
    }
  }

  lemma TotalBefore(rs: seq<Data>, n: nat, base: nat, end: nat)
    requires 0 < n <= |rs| && end == base + Total(rs[..n])
    ensures end - |rs[n - 1]| == base + Total(rs[..n - 1])
  {
    TotalPrefix(rs, n - 1);
  }

  lemma VariableStartNext(columns: seq<Column>, e: Data, share: nat, n: nat, start: nat)
    requires BitmapSize(columns) <= |e| && 0 < n <= |columns| && VariableStart(columns, e, n - 1) == Done(start)
    requires share == FixedShare(columns[n - 1], IsNullAt(e, n - 1))
    requires IsNullAt(e, n - 1) || !columns[n - 1].dataType.Unknown?
    ensures VariableStart(columns, e, n) == Done(start + share)
  {
  }

  /** What holds of one written column. */
  ghost predicate FieldWritten(c: Column, v: DataValue, e: Data, i: nat, at: Cursors, fixed: Data, variable: Data)
    requires i / 8 < |e|
  {
    && (IsNullAt(e, i) <==> v.Null?)
    && |fixed| == FixedShare(c, v.Null?) && (v.Null? || !c.dataType.Unknown?)
    && Skip(c, v.Null?, e, at) == Done(Cursors(at.fixed + |fixed|, at.variable + |variable|))
    && (!v.Null? ==> ReadColumn(c, e, at) == Done(v))
  }

  lemma ColumnWritten(columns: seq<Column>, record: Record, i: nat)
    requires Storable(columns, record) && AllFit(columns, record) && i < |columns|
    ensures FieldWritten(columns[i], record[i], Encoded(columns, record), i,
                         Path(BitmapSize(columns), FixedFields(columns, record), VariableFields(columns, record), i),
                         FixedFields(columns, record)[i], VariableFields(columns, record)[i])
  {
    var e, fixed, variable := Encoded(columns, record), FixedFields(columns, record), VariableFields(columns, record);
    NullIsMarked(columns, record, i);
    FieldsInPlace(Bitmap(columns, record, |columns|), fixed, variable, e, i);
    OneColumn(columns[i], record[i], e, i, Path(BitmapSize(columns), fixed, variable, i));
  }

  lemma OneColumn(c: Column, v: DataValue, e: Data, i: nat, at: Cursors)
    requires i / 8 < |e| && (IsNullAt(e, i) <==> v.Null?) && StorableAt(c, v) && Fits(c, v)
    requires HasBytes(e, at.fixed, FixedField(c, v)) && HasBytes(e, at.variable, VariableField(c, v))
    ensures FieldWritten(c, v, e, i, at, FixedField(c, v), VariableField(c, v))
  {
    SkipsField(c, v, e, at);
    if !v.Null? {
      ReadsField(c, v, e, at);
      if c.dataType.IsFixedType() { FixedRoundTrip(c, v); }
    }
  }

  // ---------------------------------------------------------------- the whole record

  /** Every column of `e` holds the value of the record, at the cursors of the path. */
  ghost predicate Holds(columns: seq<Column>, record: Record, e: Data, fixed: seq<Data>, variable: seq<Data>)
    requires |fixed| == |variable| == |columns| == |record| && BitmapSize(columns) <= |e|
  {
    forall i {:trigger FieldWritten(columns[i], record[i], e, i, Path(BitmapSize(columns), fixed, variable, i),
                                    fixed[i], variable[i])} ::
      0 <= i < |columns| ==>
        FieldWritten(columns[i], record[i], e, i, Path(BitmapSize(columns), fixed, variable, i), fixed[i], variable[i])
  }

  lemma EncodedHolds(columns: seq<Column>, record: Record)
    requires Storable(columns, record) && AllFit(columns, record)
    ensures Holds(columns, record, Encoded(columns, record), FixedFields(columns, record),
            VariableFields(columns, record))
  {
    forall i | 0 <= i < |columns|
      ensures FieldWritten(columns[i], record[i], Encoded(columns, record), i,
                           Path(BitmapSize(columns), FixedFields(columns, record), VariableFields(columns, record), i),
                           FixedFields(columns, record)[i], VariableFields(columns, record)[i])
    {
      ColumnWritten(columns, record, i);
    }
  }

  lemma PathStep(c: Column, v: DataValue, e: Data, i: nat, bitmapSize: nat, fixed: seq<Data>, variable: seq<Data>)
    requires i < |fixed| == |variable| && i / 8 < |e|
    requires FieldWritten(c, v, e, i, Path(bitmapSize, fixed, variable, i), fixed[i], variable[i])
    ensures |fixed[i]| == FixedShare(c, IsNullAt(e, i)) && (IsNullAt(e, i) || !c.dataType.Unknown?)
    ensures Skip(c, IsNullAt(e, i), e, Path(bitmapSize, fixed, variable, i)) ==
            Done(Path(bitmapSize, fixed, variable, i + 1))
  {
    TotalPrefix(fixed, i);
    TotalPrefix(variable, i);
  }

  /** At every column the read cursors are where the write cursors were. */
  lemma CursorsAgree(columns: seq<Column>, record: Record, e: Data, fixed: seq<Data>, variable: seq<Data>, n: nat,
                     end: nat)
    requires |fixed| == |variable| == |columns| == |record| && BitmapSize(columns) <= |e| && n <= |columns|
    requires Holds(columns, record, e, fixed, variable) && end == BitmapSize(columns) + Total(fixed)
    ensures VariableStart(columns, e, |columns|) == Done(end)
    ensures CursorsAt(columns, e, n) == Done(Path(BitmapSize(columns), fixed, variable, n))
  {
    forall i | 0 <= i < |columns|
      ensures |fixed[i]| == FixedShare(columns[i], IsNullAt(e, i)) && (IsNullAt(e, i) || !columns[i].dataType.Unknown?)
      ensures Skip(columns[i], IsNullAt(e, i), e, Path(BitmapSize(columns), fixed, variable, i))
              == Done(Path(BitmapSize(columns), fixed, variable, i + 1))
    {
      PathStep(columns[i], record[i], e, i, BitmapSize(columns), fixed, variable);
    }
    assert fixed[..|columns|] == fixed;
    VariableStartIs(columns, e, fixed, |columns|, end);
    CursorsFollow(columns, e, fixed, variable, n);
  }

  lemma NextColumn(columns: seq<Column>, e: Data, n: nat, before: Record, v: DataValue, at: Cursors)
    requires 0 < n <= |columns| && BitmapSize(columns) <= |e|
    requires DecodedPrefix(columns, e, n - 1) == Done(before) && CursorsAt(columns, e, n - 1) == Done(at)
    requires if IsNullAt(e, n - 1) then v.Null? && columns[n - 1].nullable
             else ReadColumn(columns[n - 1], e, at) == Done(v)
    ensures DecodedPrefix(columns, e, n) == Done(before + [v])
  {
  }

  lemma TakeNext<T>(s: seq<T>, n: nat)
    requires 0 < n <= |s|
    ensures s[..n] == s[..n - 1] + [s[n - 1]]
  {
  }

  lemma {:induction false} PrefixReadsBack(columns: seq<Column>, record: Record, e: Data, fixed: seq<Data>,
                                           variable: seq<Data>, n: nat)
    requires |fixed| == |variable| == |columns| == |record| && BitmapSize(columns) <= |e| && n <= |columns|
    requires Holds(columns, record, e, fixed, variable) && Storable(columns, record)
    ensures DecodedPrefix(columns, e, n) == Done(record[..n])
  {
    if n == 0 {
      CursorsAgree(columns, record, e, fixed, variable, 0, BitmapSize(columns) + Total(fixed));
    } else {
      TakeNext(record, n);
      PrefixReadsBack(columns, record, e, fixed, variable, n - 1);
      CursorsAgree(columns, record, e, fixed, variable, n - 1, BitmapSize(columns) + Total(fixed));
      var at := Path(BitmapSize(columns), fixed, variable, n - 1);
      assert FieldWritten(columns[n - 1], record[n - 1], e, n - 1, at, fixed[n - 1], variable[n - 1]);
      assert StorableAt(columns[n - 1], record[n - 1]);
      NextColumn(columns, e, n, record[..n - 1], record[n - 1], at);
    }
  }

  // ---------------------------------------------------------------- only typed records come out

  lemma {:induction false} DecodedIsTyped(columns: seq<Column>, bytes: Data, n: nat)
    requires n <= |columns| && BitmapSize(columns) <= |bytes|
    requires DecodedPrefix(columns, bytes, n).Done?
    ensures StorablePrefix(columns, DecodedPrefix(columns, bytes, n).value, n)
  {
    if n > 0 {
      DecodedIsTyped(columns, bytes, n - 1);
      DecodedNextIsTyped(columns, bytes, n, DecodedPrefix(columns, bytes, n - 1).value,
          DecodedPrefix(columns, bytes, n).value);
    }
  }

  predicate StorablePrefix(columns: seq<Column>, record: Record, n: nat) {
    && |record| == n <= |columns|
    && forall i :: 0 <= i < n ==> StorableAt(columns[i], record[i])
  }

  lemma DecodedNextIsTyped(columns: seq<Column>, bytes: Data, n: nat, before: Record, after: Record)
    requires 0 < n <= |columns| && BitmapSize(columns) <= |bytes|
    requires DecodedPrefix(columns, bytes, n - 1) == Done(before) && DecodedPrefix(columns, bytes, n) == Done(after)
    requires StorablePrefix(columns, before, n - 1)
    ensures StorablePrefix(columns, after, n)
  {
    DecodedNextEnds(columns, bytes, n, before, after);
    assert forall i :: 0 <= i < n - 1 ==> after[i] == before[i];
  }

  lemma DecodedNextEnds(columns: seq<Column>, bytes: Data, n: nat, before: Record, after: Record)
    requires 0 < n <= |columns| && BitmapSize(columns) <= |bytes|
    requires DecodedPrefix(columns, bytes, n - 1) == Done(before) && DecodedPrefix(columns, bytes, n) == Done(after)
    ensures |after| == n && after == before + [after[n - 1]] && StorableAt(columns[n - 1], after[n - 1])
  {
    if !IsNullAt(bytes, n - 1) { ReadIsTyped(columns[n - 1], bytes, CursorsAt(columns, bytes, n - 1).value); }
  }

  lemma ReadIsTyped(c: Column, bytes: Data, at: Cursors)
    requires ReadColumn(c, bytes, at).Done?
    ensures !ReadColumn(c, bytes, at).value.Null? && Matches(c.dataType, ReadColumn(c, bytes, at).value)
  {
  }

  /** A record survives writing and reading exactly when it has one value for each column, nulls
      only in nullable columns, and every other value of its column's type. */
  lemma RoundTripExactly(columns: seq<Column>, record: Record)
    requires AllFit(columns, record)
    ensures Decoded(columns, Encoded(columns, record)) == Done(record) <==> Storable(columns, record)
  {
    if Storable(columns, record) {
      EncodedHolds(columns, record);
      PrefixReadsBack(columns, record, Encoded(columns, record), FixedFields(columns, record),
          VariableFields(columns, record), |columns|);
      assert record[..|columns|] == record;
    }
    if Decoded(columns, Encoded(columns, record)) == Done(record) {
      DecodedIsTyped(columns, Encoded(columns, record), |columns|);
    }
  }

  /** The fixed cursor ends where the variable region starts, the variable cursor at the end. */
  lemma CursorsMeet(columns: seq<Column>, record: Record, e: Data, fixed: seq<Data>, variable: seq<Data>, end: nat,
                    total: nat)
    requires Storable(columns, record) && AllFit(columns, record)
    requires e == Encoded(columns, record) && fixed == FixedFields(columns, record)
    requires variable == VariableFields(columns, record)
    requires end == BitmapSize(columns) + Total(fixed) && total == |e|
    ensures BitmapSize(columns) <= |e|
    ensures VariableStart(columns, e, |columns|) == Done(end)
    ensures CursorsAt(columns, e, |columns|) == Done(Cursors(end, total))
  {
    EncodedLength(columns, record);
    EncodedHolds(columns, record);
    CursorsEnd(columns, record, e, fixed, variable, end, total);
  }

  lemma CursorsEnd(columns: seq<Column>, record: Record, e: Data, fixed: seq<Data>, variable: seq<Data>, end: nat,
                   total: nat)
    requires |fixed| == |variable| == |columns| == |record| && BitmapSize(columns) <= |e|
    requires Holds(columns, record, e, fixed, variable)
    requires end == BitmapSize(columns) + Total(fixed) && total == end + Total(variable)
    ensures VariableStart(columns, e, |columns|) == Done(end)
    ensures CursorsAt(columns, e, |columns|) == Done(Cursors(end, total))
  {
    PathEnd(BitmapSize(columns), fixed, variable, end, total);
    CursorsAgree(columns, record, e, fixed, variable, |columns|, end);
  }

  lemma PathEnd(bitmapSize: nat, fixed: seq<Data>, variable: seq<Data>, end: nat, total: nat)
    requires |fixed| == |variable| && end == bitmapSize + Total(fixed) && total == end + Total(variable)
    ensures Path(bitmapSize, fixed, variable, |fixed|) == Cursors(end, total)
  {
    assert fixed[..|fixed|] == fixed && variable[..|fixed|] == variable;
  }

  lemma EncodedLength(columns: seq<Column>, record: Record)
    requires AllFit(columns, record)
    ensures |Encoded(columns, record)| ==
            BitmapSize(columns) + Total(FixedFields(columns, record)) + Total(VariableFields(columns, record))
  {
  }
}
