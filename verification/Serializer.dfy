/** The loops that write and read records, proved against RecordFormat.dfy and KeyExtraction.dfy. */
module Serializer {
  import opened Bytes
  import opened Outcomes
  import opened DataModel
  import opened RecordFormat
  import opened RoundTrip
  import opened KeyExtraction

  // ---------------------------------------------------------------- what serialize answers

  /** First column from `i` on whose value does not fit it. */
  function FirstMisfit(columns: seq<Column>, record: Record, i: nat): (j: nat)
    requires i <= |columns| <= |record|
    ensures i <= j <= |columns|
    ensures forall k :: i <= k < j ==> Fits(columns[k], record[k])
    ensures j < |columns| ==> !Fits(columns[j], record[j])
    decreases |columns| - i
  {
    if i == |columns| || !Fits(columns[i], record[i]) then i else FirstMisfit(columns, record, i + 1)
  }

  /** Lengths of the texts and blobs in variable-length columns among the first `n`. */
  function Lengths(columns: seq<Column>, record: Record, n: nat): seq<nat>
    requires n <= |columns| <= |record|
  {
    if n == 0 then []
    else if HasLength(columns[n - 1], record[n - 1]) then Lengths(columns, record, n - 1) + [|Payload(record[n - 1])|]
    else Lengths(columns, record, n - 1)
  }

  predicate HasLength(c: Column, v: DataValue) { c.dataType.FixedSize().None? && (v.Text? || v.Blob?) }

  /** A value that does not fit is an error, or a panic: a fixed-length value of another length, or
      a value without a length when no column after it has one. */
  function Serialized(columns: seq<Column>, record: Record): Outcome<Data, SerializationError> {
    if |record| < |columns| then Panicked
    else
      var j := FirstMisfit(columns, record, 0);
      if j == |columns| then Done(Encoded(columns, record))
      else if columns[j].dataType.FixedSize().Some? then
        if IsFixedValue(record[j]) then Panicked else Failed(DataTypeMismatch)
      else if |Lengths(columns, record, j)| < |Lengths(columns, record, |columns|)| then Failed(DataTypeMismatch)
      else Panicked
  }

  // ---------------------------------------------------------------- sizes

  function VariableShare(c: Column, v: DataValue): nat {
    if v.Null? || c.dataType.FixedSize().Some? then 0
    else if v.Text? || v.Blob? then 4 + |Payload(v)|
    else 4
  }

  function FixedTotal(columns: seq<Column>, record: Record, n: nat): nat
    requires n <= |columns| <= |record|
  {
    if n == 0 then 0 else FixedTotal(columns, record, n - 1) + FixedShare(columns[n - 1], record[n - 1].Null?)
  }

  function VariableTotal(columns: seq<Column>, record: Record, n: nat): nat
    requires n <= |columns| <= |record|
  {
    if n == 0 then 0 else VariableTotal(columns, record, n - 1) + VariableShare(columns[n - 1], record[n - 1])
  }

  lemma {:induction false} TotalsGrow(columns: seq<Column>, record: Record, i: nat, n: nat)
    requires i <= n <= |columns| <= |record|
    ensures FixedTotal(columns, record, i) <= FixedTotal(columns, record, n)
    ensures VariableTotal(columns, record, i) <= VariableTotal(columns, record, n)
    ensures Lengths(columns, record, i) <= Lengths(columns, record, n)
  {
    if i < n { TotalsGrow(columns, record, i, n - 1); }
  }

  /** The size computation loop; values without a length are skipped. */
  method CalculateSize(columns: seq<Column>, record: Record) returns (total: nat, lengths: seq<nat>, fixedLength: nat)
    requires |columns| <= |record|
    ensures lengths == Lengths(columns, record, |columns|)
    ensures fixedLength == FixedTotal(columns, record, |columns|)
    ensures total == BitmapSize(columns) + fixedLength + VariableTotal(columns, record, |columns|)
  {
    total, lengths, fixedLength := BitmapSize(columns), [], 0;
    for i := 0 to |columns|
      invariant lengths == Lengths(columns, record, i)
      invariant fixedLength == FixedTotal(columns, record, i)
      invariant total == BitmapSize(columns) + fixedLength + VariableTotal(columns, record, i)
    {
      var value := record[i];
      if !value.Null? {
        match columns[i].dataType.FixedSize()
        case Some(size) =>
          total := total + size;
          fixedLength := fixedLength + size;
        case None =>
          total := total + 4;
          if value.Blob? || value.Text? {
            total := total + |Payload(value)|;
            lengths := lengths + [|Payload(value)|];
          }
      }
    }
  }

  // ---------------------------------------------------------------- writing

  /** A buffer with room for bitmap, fixed region and variable region, the regions filled from
      their starts and the rest of the fixed region zero. */
  ghost predicate Parts(b: Data, fixedLength: nat, variableLength: nat, bitmap: Data, fixed: Data, variable: Data) {
    && |fixed| <= fixedLength && |variable| <= variableLength
    && |b| == |bitmap| + fixedLength + variableLength
    && HasBytes(b, 0, bitmap)
    && HasBytes(b, |bitmap|, fixed)
    && (forall k {:trigger b[k]} :: |bitmap| + |fixed| <= k < |bitmap| + fixedLength ==> b[k] == 0)
    && HasBytes(b, |bitmap| + fixedLength, variable)
  }

  /** Bytes clear of a write stay. */
  lemma KeptBytes(b: Data, r: Data, o: nat, d: Data, at: nat, y: Data)
    requires HasBytes(b, at, y) && Written(b, o, d, r) && (at + |y| <= o || o + |d| <= at)
    ensures HasBytes(r, at, y)
  {
    assert r[at..at + |y|] == b[at..at + |y|];
  }

  /** Bytes written behind others follow them. */
  lemma AppendedBytes(b: Data, r: Data, at: nat, y: Data, d: Data)
    requires HasBytes(b, at, y) && Written(b, at + |y|, d, r)
    ensures HasBytes(r, at, y + d)
  {
    KeptBytes(b, r, at + |y|, d, at, y);
    var z := r[at..at + |y + d|];
    assert z[..|y|] == r[at..at + |y|] && z[|y|..] == d;
    assert z == z[..|y|] + z[|y|..];
  }

  lemma BitWritten(b: Data, r: Data, fixedLength: nat, variableLength: nat, bitmap: Data, fixed: Data, variable: Data,
                   k: nat, x: Byte)
    requires Parts(b, fixedLength, variableLength, bitmap, fixed, variable) && k < |bitmap|
    requires Written(b, k, [x], r)
    ensures Parts(r, fixedLength, variableLength, bitmap[k := x], fixed, variable)
  {
    assert r[0..|bitmap|] == b[0..|bitmap|][k := x];
    KeptBytes(b, r, k, [x], |bitmap|, fixed);
    KeptBytes(b, r, k, [x], |bitmap| + fixedLength, variable);
  }

  lemma FixedWritten(b: Data, r: Data, fixedLength: nat, variableLength: nat, bitmap: Data, fixed: Data, variable: Data,
                     d: Data, pad: nat)
    requires Parts(b, fixedLength, variableLength, bitmap, fixed, variable)
    requires |fixed| + |d| + pad <= fixedLength && Written(b, |bitmap| + |fixed|, d, r)
    ensures Parts(r, fixedLength, variableLength, bitmap, fixed + (d + Zeros(pad)), variable)
  {
    var o := |bitmap| + |fixed|;
    KeptBytes(b, r, o, d, 0, bitmap);
    KeptBytes(b, r, o, d, |bitmap| + fixedLength, variable);
    AppendedBytes(b, r, |bitmap|, fixed, d);
    ZerosBehind(r, |bitmap|, fixed + d, pad);
    assert fixed + d + Zeros(pad) == fixed + (d + Zeros(pad));
  }

  lemma ZerosBehind(r: Data, at: nat, y: Data, pad: nat)
    requires HasBytes(r, at, y) && at + |y| + pad <= |r|
    requires forall k {:trigger r[k]} :: at + |y| <= k < at + |y| + pad ==> r[k] == 0
    ensures HasBytes(r, at, y + Zeros(pad))
  {
    var z := r[at..at + |y| + pad];
    assert z[..|y|] == r[at..at + |y|];
    forall k | 0 <= k < pad ensures z[|y|..][k] == 0 { assert z[|y|..][k] == r[at + |y| + k]; }
    assert z == z[..|y|] + z[|y|..];
  }

  lemma VariableWritten(b: Data, r: Data, fixedLength: nat, variableLength: nat, bitmap: Data, fixed: Data,
                        variable: Data, d: Data)
    requires Parts(b, fixedLength, variableLength, bitmap, fixed, variable)
    requires |variable| + |d| <= variableLength && Written(b, |bitmap| + fixedLength + |variable|, d, r)
    ensures Parts(r, fixedLength, variableLength, bitmap, fixed, variable + d)
  {
    var o := |bitmap| + fixedLength + |variable|;
    KeptBytes(b, r, o, d, 0, bitmap);
    KeptBytes(b, r, o, d, |bitmap|, fixed);
    AppendedBytes(b, r, |bitmap| + fixedLength, variable, d);
  }

  lemma PartsComplete(b: Data, fixedLength: nat, variableLength: nat, bitmap: Data, fixed: Data, variable: Data)
    requires Parts(b, fixedLength, variableLength, bitmap, fixed, variable)
    requires |fixed| == fixedLength && |variable| == variableLength
    ensures b == bitmap + fixed + variable
  {
    assert b == b[0..|bitmap|] + b[|bitmap|..|bitmap| + fixedLength] + b[|bitmap| + fixedLength..];
  }

  lemma NextFields(columns: seq<Column>, record: Record, i: nat)
    requires i < |columns| <= |record| && AllFit(columns[..i], record[..i]) && Fits(columns[i], record[i])
    ensures AllFit(columns[..i + 1], record[..i + 1])
    ensures Flatten(FixedFields(columns[..i + 1], record[..i + 1])) ==
            Flatten(FixedFields(columns[..i], record[..i])) + FixedField(columns[i], record[i])
    ensures Flatten(VariableFields(columns[..i + 1], record[..i + 1])) ==
            Flatten(VariableFields(columns[..i], record[..i])) + VariableField(columns[i], record[i])
  {
    var columns', record' := columns[..i + 1], record[..i + 1];
    forall j | 0 <= j < |columns'| ensures Fits(columns'[j], record'[j]) {
      if j < i { assert Fits(columns[..i][j], record[..i][j]); }
    }
    var fixed, variable := FixedFields(columns[..i + 1], record[..i + 1]),
        VariableFields(columns[..i + 1], record[..i + 1]);
    FlattenNext(fixed, i);
    FlattenNext(variable, i);
    assert fixed[..i + 1] == fixed && fixed[..i] == FixedFields(columns[..i], record[..i]);
    assert variable[..i + 1] == variable && variable[..i] == VariableFields(columns[..i], record[..i]);
  }

  lemma ShareIsLength(c: Column, v: DataValue)
    requires Fits(c, v)
    ensures |FixedField(c, v)| == FixedShare(c, v.Null?) && |VariableField(c, v)| == VariableShare(c, v)
  {
  }

  /** Writes one non-null value that fits: into the fixed region, or its length and bytes into the
      variable region. */
  method WriteValue(bytes: array<Byte>, c: Column, value: DataValue, ghost fixedLength: nat, ghost variableLength: nat,
                    fixedOffset: nat, variableOffset: nat, ghost bitmap: Data, ghost fixed: Data, ghost variable: Data)
    requires Fits(c, value) && !value.Null?
    requires Parts(bytes[..], fixedLength, variableLength, bitmap, fixed, variable)
    requires fixedOffset == |bitmap| + |fixed| && variableOffset == |bitmap| + fixedLength + |variable|
    requires |fixed| + |FixedField(c, value)| <= fixedLength && |variable| + |VariableField(c, value)| <= variableLength
    modifies bytes
    ensures Parts(bytes[..], fixedLength, variableLength, bitmap,
                  fixed + FixedField(c, value), variable + VariableField(c, value))
  {
    FieldsOfValue(c, value);
    if c.dataType.FixedSize().Some? {
      WriteFixed(bytes, FixedBytes(value), c.dataType.FixedSize().value - FixedLength(value), fixedLength,
                 variableLength, fixedOffset, bitmap, fixed, variable);
      assert variable + [] == variable;
    } else {
      WriteVariable(bytes, LE(|Payload(value)| % U32_LIMIT, 4), Payload(value), fixedLength, variableLength,
                    variableOffset, bitmap, fixed, variable);
      assert fixed + [] == fixed;
    }
  }

  lemma FieldsOfValue(c: Column, v: DataValue)
    requires Fits(c, v) && !v.Null?
    ensures match c.dataType.FixedSize()
            case Some(n) => n >= FixedLength(v) && FixedField(c, v) == FixedBytes(v) + Zeros(n - FixedLength(v))
                && VariableField(c, v) == []
            case None => FixedField(c, v) == [] && VariableField(c, v) == LE(|Payload(v)| % U32_LIMIT, 4) + Payload(v)
  {
  }

  method WriteFixed(bytes: array<Byte>, d: Data, ghost pad: nat, ghost fixedLength: nat, ghost variableLength: nat,
                    fixedOffset: nat, ghost bitmap: Data, ghost fixed: Data, ghost variable: Data)
    requires Parts(bytes[..], fixedLength, variableLength, bitmap, fixed, variable)
    requires fixedOffset == |bitmap| + |fixed| && |fixed| + |d| + pad <= fixedLength
    modifies bytes
    ensures Parts(bytes[..], fixedLength, variableLength, bitmap, fixed + (d + Zeros(pad)), variable)
  {
    ghost var b := bytes[..];
    CopyFromSlice(bytes, fixedOffset, d);
    FixedWritten(b, bytes[..], fixedLength, variableLength, bitmap, fixed, variable, d, pad);
  }

  method WriteVariable(bytes: array<Byte>, length: Data, payload: Data, ghost fixedLength: nat,
                       ghost variableLength: nat, variableOffset: nat, ghost bitmap: Data, ghost fixed: Data,
                       ghost variable: Data)
    requires Parts(bytes[..], fixedLength, variableLength, bitmap, fixed, variable)
    requires variableOffset == |bitmap| + fixedLength + |variable|
    requires |length| == 4 && |variable| + 4 + |payload| <= variableLength
    modifies bytes
    ensures Parts(bytes[..], fixedLength, variableLength, bitmap, fixed, variable + (length + payload))
  {
    ghost var b := bytes[..];
    CopyFromSlice(bytes, variableOffset, length);
    ghost var b1 := bytes[..];
    VariableWritten(b, b1, fixedLength, variableLength, bitmap, fixed, variable, length);
    CopyFromSlice(bytes, variableOffset + 4, payload);
    VariableWritten(b1, bytes[..], fixedLength, variableLength, bitmap, fixed, variable + length, payload);
    assert variable + length + payload == variable + (length + payload);
  }

  /** Sets the null bit of column `i`. */
  method MarkNull(bytes: array<Byte>, i: nat, ghost fixedLength: nat, ghost variableLength: nat,
                  ghost bitmap: Data, ghost fixed: Data, ghost variable: Data)
    requires i / 8 < |bitmap|
    requires Parts(bytes[..], fixedLength, variableLength, bitmap, fixed, variable)
    modifies bytes
    ensures Parts(bytes[..], fixedLength, variableLength, bitmap[i / 8 := SetBit(bitmap[i / 8], i % 8)], fixed,
            variable)
  {
    ghost var b := bytes[..];
    assert b[0..|bitmap|][i / 8] == b[i / 8];
    var marked := SetBit(bytes[i / 8], i % 8);
    CopyFromSlice(bytes, i / 8, [marked]);
    BitWritten(b, bytes[..], fixedLength, variableLength, bitmap, fixed, variable, i / 8, marked);
  }

  /** Writes column `i`, whose value fits. */
  method WriteColumn(bytes: array<Byte>, columns: seq<Column>, record: Record, i: nat, fixedOffset: nat,
                     variableOffset: nat, ghost fixedLength: nat, ghost variableLength: nat, ghost fixed: Data,
                     ghost variable: Data)
    requires i < |columns| <= |record| && Fits(columns[i], record[i])
    requires Parts(bytes[..], fixedLength, variableLength, Bitmap(columns, record, i), fixed, variable)
    requires fixedOffset == BitmapSize(columns) + |fixed|
    requires variableOffset == BitmapSize(columns) + fixedLength + |variable|
    requires |fixed| + FixedShare(columns[i], record[i].Null?) <= fixedLength
    requires |variable| + VariableShare(columns[i], record[i]) <= variableLength
    modifies bytes
    ensures Parts(bytes[..], fixedLength, variableLength, Bitmap(columns, record, i + 1),
                  fixed + FixedField(columns[i], record[i]), variable + VariableField(columns[i], record[i]))
  {
    ShareIsLength(columns[i], record[i]);
    if record[i].Null? {
      MarkNull(bytes, i, fixedLength, variableLength, Bitmap(columns, record, i), fixed, variable);
      assert fixed + FixedField(columns[i], record[i]) == fixed
             && variable + VariableField(columns[i], record[i]) == variable;
    } else {
      WriteValue(bytes, columns[i], record[i], fixedLength, variableLength, fixedOffset, variableOffset,
                 Bitmap(columns, record, i), fixed, variable);
    }
  }

  /** What is in the buffer before column `i`: the fields of the columns before it. */
  ghost predicate FieldsUpTo(columns: seq<Column>, record: Record, i: nat, fixed: Data, variable: Data)
    requires i <= |columns| <= |record|
  {
    && AllFit(columns[..i], record[..i])
    && fixed == Flatten(FixedFields(columns[..i], record[..i])) && |fixed| == FixedTotal(columns, record, i)
    && variable == Flatten(VariableFields(columns[..i], record[..i])) && |variable| == VariableTotal(columns, record, i)
  }

  lemma FieldsNext(columns: seq<Column>, record: Record, i: nat, fixed: Data, variable: Data)
    requires i < |columns| <= |record| && FieldsUpTo(columns, record, i, fixed, variable) && Fits(columns[i], record[i])
    ensures FieldsUpTo(columns, record, i + 1,
                       fixed + FixedField(columns[i], record[i]), variable + VariableField(columns[i], record[i]))
  {
    NextFields(columns, record, i);
    ShareIsLength(columns[i], record[i]);
  }

  lemma FieldsComplete(columns: seq<Column>, record: Record, b: Data, fixed: Data, variable: Data)
    requires |columns| <= |record| && FieldsUpTo(columns, record, |columns|, fixed, variable)
    requires Parts(b, FixedTotal(columns, record, |columns|), VariableTotal(columns, record, |columns|),
                   Bitmap(columns, record, |columns|), fixed, variable)
    ensures AllFit(columns, record) && b == Encoded(columns, record)
  {
    var n := |columns|;
    assert columns[..n] == columns;
    forall j | 0 <= j < n ensures Fits(columns[j], record[j]) {
      assert Fits(columns[..n][j], record[..n][j]);
    }
    assert FixedFields(columns[..n], record[..n]) == FixedFields(columns, record);
    assert VariableFields(columns[..n], record[..n]) == VariableFields(columns, record);
    PartsComplete(b, |fixed|, |variable|, Bitmap(columns, record, n), fixed, variable);
  }

  /** The write cursors: offsets in the two regions and index into the lengths. */
  datatype WriteCursors = WriteCursors(fixed: nat, variable: nat, length: nat)

  /** Invariant of the write loop before column `i`. */
  ghost predicate Progress(columns: seq<Column>, record: Record, b: Data, i: nat, at: WriteCursors, fixed: Data,
                           variable: Data)
    requires i <= |columns| <= |record|
  {
    && FieldsUpTo(columns, record, i, fixed, variable)
    && Parts(b, FixedTotal(columns, record, |columns|), VariableTotal(columns, record, |columns|),
             Bitmap(columns, record, i), fixed, variable)
    && at.fixed == BitmapSize(columns) + |fixed|
    && at.variable == BitmapSize(columns) + FixedTotal(columns, record, |columns|) + |variable|
    && at.length == |Lengths(columns, record, i)|
  }

  lemma ProgressStarts(columns: seq<Column>, record: Record, b: Data, at: WriteCursors)
    requires |columns| <= |record|
    requires b == Zeros(BitmapSize(columns) + FixedTotal(columns, record, |columns|)
             + VariableTotal(columns, record, |columns|))
    requires at == WriteCursors(BitmapSize(columns), BitmapSize(columns) + FixedTotal(columns, record, |columns|), 0)
    ensures Progress(columns, record, b, 0, at, [], [])
  {
    assert b[..BitmapSize(columns)] == Bitmap(columns, record, 0);
  }

  /** One round of the write loop, for a value that fits. */
  method WriteNext(bytes: array<Byte>, columns: seq<Column>, record: Record, lengths: seq<nat>, i: nat,
                   at: WriteCursors, ghost fixed: Data, ghost variable: Data) returns (next: WriteCursors)
    requires i < |columns| <= |record| && Fits(columns[i], record[i]) && lengths == Lengths(columns, record, |columns|)
    requires Progress(columns, record, bytes[..], i, at, fixed, variable)
    modifies bytes
    ensures Progress(columns, record, bytes[..], i + 1, next,
                     fixed + FixedField(columns[i], record[i]), variable + VariableField(columns[i], record[i]))
  {
    TotalsGrow(columns, record, i + 1, |columns|);
    WriteColumn(bytes, columns, record, i, at.fixed, at.variable, FixedTotal(columns, record, |columns|),
                VariableTotal(columns, record, |columns|), fixed, variable);
    FieldsNext(columns, record, i, fixed, variable);
    ShareIsLength(columns[i], record[i]);
    next := at;
    if !record[i].Null? {
      match columns[i].dataType.FixedSize()
      case Some(size) => next := at.(fixed := at.fixed + size);
      case None => next := at.(variable := at.variable + 4 + lengths[at.length], length := at.length + 1);
    }
  }

  lemma MisfitFrom(columns: seq<Column>, record: Record, i: nat)
    requires i < |columns| <= |record| && FirstMisfit(columns, record, 0) >= i
    ensures if Fits(columns[i], record[i]) then FirstMisfit(columns, record, 0) >= i + 1
            else FirstMisfit(columns, record, 0) == i
  {
  }

  /** The write loop, up to the first value that does not fit. */
  method WriteFitting(bytes: array<Byte>, columns: seq<Column>, record: Record, lengths: seq<nat>, fixedLength: nat)
    returns (stop: nat, at: WriteCursors)
    requires |columns| <= |record| && lengths == Lengths(columns, record, |columns|)
    requires fixedLength == FixedTotal(columns, record, |columns|)
    requires bytes[..] == Zeros(BitmapSize(columns) + fixedLength + VariableTotal(columns, record, |columns|))
    modifies bytes
    ensures stop == FirstMisfit(columns, record, 0) && at.length == |Lengths(columns, record, stop)|
    ensures stop == |columns| ==> AllFit(columns, record) && bytes[..] == Encoded(columns, record)
  {
    at := WriteCursors(BitmapSize(columns), BitmapSize(columns) + fixedLength, 0);
    ghost var fixed: Data, variable: Data := [], [];
    ProgressStarts(columns, record, bytes[..], at);
    stop := 0;
    while stop < |columns| && Fits(columns[stop], record[stop])
      invariant stop <= |columns| && FirstMisfit(columns, record, 0) >= stop
      invariant Progress(columns, record, bytes[..], stop, at, fixed, variable)
    {
      MisfitFrom(columns, record, stop);
      at := WriteNext(bytes, columns, record, lengths, stop, at, fixed, variable);
      fixed := fixed + FixedField(columns[stop], record[stop]);
      variable := variable + VariableField(columns[stop], record[stop]);
      stop := stop + 1;
    }
    if stop < |columns| {
      MisfitFrom(columns, record, stop);
    } else {
      FieldsComplete(columns, record, bytes[..], fixed, variable);
    }
  }

  method Serialize(columns: seq<Column>, record: Record) returns (result: Outcome<Data, SerializationError>)
    ensures result == Serialized(columns, record)
  {
    if |record| < |columns| {
      return Panicked;
    }
    var total, lengths, fixedLength := CalculateSize(columns, record);
    var bytes := new Byte[total](_ => 0);
    var stop, at := WriteFitting(bytes, columns, record, lengths, fixedLength);
    if stop == |columns| {
      result := Done(bytes[..]);
    } else if columns[stop].dataType.FixedSize().Some? {
      result := if IsFixedValue(record[stop]) then Panicked else Failed(DataTypeMismatch);
    } else {
      result := if at.length < |lengths| then Failed(DataTypeMismatch) else Panicked;
    }
  }

  // ---------------------------------------------------------------- reading

  /** Start of the variable region, by a loop over the columns. */
  method FindVariableStart(columns: seq<Column>, bytes: Data) returns (start: Outcome<nat, SerializationError>)
    requires BitmapSize(columns) <= |bytes|
    ensures start == VariableStart(columns, bytes, |columns|)
  {
    var offset := BitmapSize(columns);
    for i := 0 to |columns|
      invariant VariableStart(columns, bytes, i) == Done(offset)
    {
      if !IsNullAt(bytes, i) && columns[i].dataType.IsFixedType() {
        var size := columns[i].dataType.FixedSize();
        if size.None? {
          StartStaysPanicked(columns, bytes, i + 1, |columns|);
          return Panicked;
        }
        offset := offset + size.value;
      }
    }
    start := Done(offset);
  }

  lemma {:induction false} StartStaysPanicked(columns: seq<Column>, bytes: Data, n: nat, m: nat)
    requires n <= m <= |columns| && BitmapSize(columns) <= |bytes| && VariableStart(columns, bytes, n).Panicked?
    ensures VariableStart(columns, bytes, m).Panicked?
  {
    if n < m { StartStaysPanicked(columns, bytes, n, m - 1); }
  }

  lemma {:induction false} StartNeverFails(columns: seq<Column>, bytes: Data, n: nat)
    requires n <= |columns| && BitmapSize(columns) <= |bytes|
    ensures !VariableStart(columns, bytes, n).Failed?
  {
    if n > 0 { StartNeverFails(columns, bytes, n - 1); }
  }

  /** Once reading a column has failed or panicked, so has the whole record. */
  lemma {:induction false} DecodingStops(columns: seq<Column>, bytes: Data, n: nat, m: nat)
    requires n <= m <= |columns| && BitmapSize(columns) <= |bytes| && !DecodedPrefix(columns, bytes, n).Done?
    ensures DecodedPrefix(columns, bytes, m) == DecodedPrefix(columns, bytes, n)
  {
    if n < m { DecodingStops(columns, bytes, n, m - 1); }
  }

  /** Reads one non-null column and moves the cursor that was used. */
  method ReadAndAdvance(c: Column, bytes: Data, at: Cursors)
    returns (value: Outcome<DataValue, SerializationError>, next: Cursors)
    ensures value == ReadColumn(c, bytes, at)
    ensures value.Done? ==> Skip(c, false, bytes, at) == Done(next)
  {
    next := at;
    match c.dataType.FixedSize()
    case Some(size) =>
      if at.fixed + size > |bytes| {
        return Panicked, at;
      }
      value := Done(FixedValue(c.dataType, bytes[at.fixed..at.fixed + size]));
      next := at.(fixed := at.fixed + size);
    case None =>
      match StoredLength(bytes, at.variable)
      case Done(size) =>
        if at.variable + 4 + size > |bytes| {
          return Panicked, at;
        }
        value := VariableValue(c.dataType, bytes[at.variable + 4..at.variable + 4 + size]);
        next := at.(variable := at.variable + 4 + size);
      case _ => value := Panicked;
  }

  method Deserialize(columns: seq<Column>, bytes: Data) returns (result: Outcome<Record, SerializationError>)
    ensures result == Decoded(columns, bytes)
  {
    if |bytes| < BitmapSize(columns) {
      return Panicked;
    }
    var start := FindVariableStart(columns, bytes);
    if !start.Done? {
      StartNeverFails(columns, bytes, |columns|);
      DecodingStops(columns, bytes, 0, |columns|);
      return Panicked;
    }
    var at, values := Cursors(BitmapSize(columns), start.value), [];
    for i := 0 to |columns|
      invariant DecodedPrefix(columns, bytes, i) == Done(values) && CursorsAt(columns, bytes, i) == Done(at)
    {
      if IsNullAt(bytes, i) {
        if !columns[i].nullable {
          DecodingStops(columns, bytes, i + 1, |columns|);
          return Failed(NullValueForNonNullColumnFound);
        }
        values := values + [Null];
      } else {
        var value, next := ReadAndAdvance(columns[i], bytes, at);
        if !value.Done? {
          DecodingStops(columns, bytes, i + 1, |columns|);
          return Panicked;
        }
        at, values := next, values + [value.value];
      }
    }
    result := Done(values);
  }

  lemma {:induction false} ScanStops(columns: seq<Column>, keyNames: seq<string>, bytes: Data, n: nat, m: nat)
    requires n <= m <= |columns| && BitmapSize(columns) <= |bytes|
    requires var r := Scanned(columns, keyNames, bytes, n); !r.Done? || r.value.found >= |keyNames|
    ensures Scanned(columns, keyNames, bytes, m) == Scanned(columns, keyNames, bytes, n)
  {
    if n < m { ScanStops(columns, keyNames, bytes, n, m - 1); }
  }

  /** One column of the key scan: reads it only if it is a key column, skips it otherwise. */
  method ScanNext(c: Column, isNull: bool, keyNames: seq<string>, bytes: Data, s: Scan)
    returns (r: Outcome<Scan, SerializationError>)
    requires |s.values| == |keyNames|
    ensures r == ScanColumn(c, isNull, keyNames, bytes, s)
  {
    var isKey := c.name in keyNames;
    if isNull {
      return if isKey then Failed(NullPrimaryKeyColumnValue) else Done(s);
    }
    if isKey {
      var value, next := ReadAndAdvance(c, bytes, s.at);
      if !value.Done? {
        return Panicked;
      }
      return Done(Scan(s.found + 1, next, s.values[Position(keyNames, c.name) := value.value]));
    }
    match Skip(c, false, bytes, s.at)
    case Done(next) => r := Done(s.(at := next));
    case _ => r := Panicked;
  }

  /** The key scan, with its early exit once every key column has been found. */
  method DeserializeKey(columns: seq<Column>, keyNames: seq<string>, bytes: Data)
    returns (result: Outcome<Key, SerializationError>)
    ensures result == KeyOf(columns, keyNames, bytes)
  {
    if |bytes| < BitmapSize(columns) {
      return Panicked;
    }
    var start := FindVariableStart(columns, bytes);
    if !start.Done? {
      StartNeverFails(columns, bytes, |columns|);
      ScanStops(columns, keyNames, bytes, 0, |columns|);
      return Panicked;
    }
    var scan := ScanAll(columns, keyNames, bytes, start.value);
    match scan {
      case Done(s) => result := Done(s.values);
      case Failed(e) => result := Failed(e);
      case Panicked => result := Panicked;
    }
  }

  lemma ScannedNext(columns: seq<Column>, keyNames: seq<string>, bytes: Data, i: nat, scan: Scan)
    requires BitmapSize(columns) <= |bytes| && i < |columns|
    requires Scanned(columns, keyNames, bytes, i) == Done(scan) && scan.found < |keyNames|
    ensures Scanned(columns, keyNames, bytes, i + 1) ==
            ScanColumn(columns[i], IsNullAt(bytes, i), keyNames, bytes, scan)
  {
  }

  lemma BitmapCovers(columns: seq<Column>, bytes: Data, i: nat)
    requires BitmapSize(columns) <= |bytes| && i < |columns|
    ensures i / 8 < |bytes|
  {
  }

  lemma ScanStarts(columns: seq<Column>, keyNames: seq<string>, bytes: Data, scan: Scan)
    requires BitmapSize(columns) <= |bytes|
    requires VariableStart(columns, bytes, |columns|) == Done(scan.at.variable)
    requires scan == Scan(0, Cursors(BitmapSize(columns), scan.at.variable), Nulls(|keyNames|))
    ensures Scanned(columns, keyNames, bytes, 0) == Done(scan)
  {
  }

  lemma ScanEnds(columns: seq<Column>, keyNames: seq<string>, bytes: Data, i: nat, scan: Scan)
    requires BitmapSize(columns) <= |bytes| && i <= |columns| && Scanned(columns, keyNames, bytes, i) == Done(scan)
    requires i == |columns| || scan.found >= |keyNames|
    ensures Scanned(columns, keyNames, bytes, |columns|) == Done(scan)
  {
    if i < |columns| { ScanStops(columns, keyNames, bytes, i, |columns|); }
  }

  /** The scan loop. */
  method ScanAll(columns: seq<Column>, keyNames: seq<string>, bytes: Data, start: nat)
    returns (result: Outcome<Scan, SerializationError>)
    requires BitmapSize(columns) <= |bytes| && VariableStart(columns, bytes, |columns|) == Done(start)
    ensures result == Scanned(columns, keyNames, bytes, |columns|)
  {
    var scan := Scan(0, Cursors(BitmapSize(columns), start), Nulls(|keyNames|));
    ScanStarts(columns, keyNames, bytes, scan);
    var i := 0;
    while i < |columns| && scan.found < |keyNames|
      invariant 0 <= i <= |columns| && |scan.values| == |keyNames|
      invariant Scanned(columns, keyNames, bytes, i) == Done(scan)
    {
      BitmapCovers(columns, bytes, i);
      var next := ScanNext(columns[i], IsNullAt(bytes, i), keyNames, bytes, scan);
      ScannedNext(columns, keyNames, bytes, i, scan);
      if !next.Done? {
        ScanStops(columns, keyNames, bytes, i + 1, |columns|);
        return next;
      }
      scan, i := next.value, i + 1;
    }
    ScanEnds(columns, keyNames, bytes, i, scan);
    result := Done(scan);
  }
}
