/** What reading a record answers on any bytes, and what writing answers on any values. */
module RecordReading {
  import opened Bytes
  import opened Outcomes
  import opened DataModel
  import opened RecordFormat
  import opened RoundTrip
  import opened RecordLayout
  import opened Serializer

  // ---------------------------------------------------------------- reading any bytes

  /** The bytes read for one column: a null where the column allows it, the fixed-length value at one
      cursor, or the text or blob at the other behind its length. */
  ghost predicate ColumnIs(c: Column, v: DataValue, b: Data, at: Cursors) {
    if v.Null? then c.nullable
    else
      && Matches(c.dataType, v)
      && if FixedType(c.dataType) then
        var end := at.fixed + Width(c.dataType);
        end <= |b| && |b[at.fixed..end]| == Width(c.dataType) && v == FixedValue(c.dataType, b[at.fixed..end])
      else
        var payload := Payload(v);
        && at.variable + 4 + |payload| <= |b|
        && Value(b[at.variable..at.variable + 4]) == |payload|
        && b[at.variable + 4..at.variable + 4 + |payload|] == payload
  }

  /** Where column `i` lies, when the texts and blobs start at `start`. */
  ghost function Offsets(columns: seq<Column>, record: Record, start: nat, i: nat): Cursors
    requires i <= |columns| && i <= |record|
  {
    Cursors(BitmapSize(columns) + FixedBefore(columns, record, i), start + VariableBefore(columns, record, i))
  }

  /** Column `i` of `b` is read as `record[i]`, when the texts and blobs start at `start`. */
  ghost predicate ReadsAt(columns: seq<Column>, record: Record, b: Data, start: nat, i: nat)
    requires i < |columns| <= 8 * |b| && i < |record|
  {
    (BitSet(b, i) <==> record[i].Null?) && ColumnIs(columns[i], record[i], b, Offsets(columns, record, start, i))
  }

  /** The first `n` columns are. */
  ghost predicate ReadsUpTo(columns: seq<Column>, record: Record, b: Data, start: nat, n: nat)
    requires n <= |columns| <= 8 * |b| && |columns| == |record|
  {
    n == 0 || (ReadsUpTo(columns, record, b, start, n - 1) && ReadsAt(columns, record, b, start, n - 1))
  }

  /** The bytes are read as `record`; bytes behind the last field are ignored. */
  ghost predicate ReadsAs(columns: seq<Column>, record: Record, b: Data) {
    && |record| == |columns| && BitmapSize(columns) <= |b|
    && ReadsUpTo(columns, record, b, BitmapSize(columns) + FixedBefore(columns, record, |columns|), |columns|)
  }

  lemma FixedTypeHasSize(t: PrimitiveDataType)
    ensures FixedType(t) ==> t.FixedSize() == Some(Width(t)) && t.IsFixedType()
    ensures !FixedType(t) ==> t.FixedSize() == None && (t.IsFixedType() <==> t.Unknown?)
  {
  }

  lemma LengthIs(b: Data, at: nat, n: nat)
    requires n < 0x8000_0000
    ensures StoredLength(b, at) == Done(n) <==> at + 4 <= |b| && Value(b[at..at + 4]) == n
  {
    Widths();
  }

  lemma LengthIsSmall(b: Data, at: nat)
    ensures StoredLength(b, at).Done? ==> StoredLength(b, at).value < 0x8000_0000
    ensures !StoredLength(b, at).Done? ==> StoredLength(b, at).Panicked?
  {
    Widths();
  }

  lemma FixedMatches(t: PrimitiveDataType, b: Data)
    requires t.FixedSize() == Some(|b|)
    ensures Matches(t, FixedValue(t, b))
  {
  }

  /** Reading a column gives `v` exactly when the bytes hold it. */
  lemma ColumnReads(c: Column, v: DataValue, b: Data, at: Cursors)
    requires !v.Null?
    ensures ReadColumn(c, b, at) == Done(v) <==> ColumnIs(c, v, b, at)
  {
    FixedTypeHasSize(c.dataType);
    if FixedType(c.dataType) {
      if at.fixed + Width(c.dataType) <= |b| {
        FixedMatches(c.dataType, b[at.fixed..at.fixed + Width(c.dataType)]);
      }
    } else {
      PayloadReads(c, v, b, at);
    }
  }

  lemma PayloadReads(c: Column, v: DataValue, b: Data, at: Cursors)
    requires !v.Null? && !FixedType(c.dataType)
    ensures ReadColumn(c, b, at) == Done(v) <==> ColumnIs(c, v, b, at)
  {
    FixedTypeHasSize(c.dataType);
    LengthIsSmall(b, at.variable);
    if v.Text? || v.Blob? {
      if |Payload(v)| < 0x8000_0000 { LengthIs(b, at.variable, |Payload(v)|); }
    }
  }

  /** The cursors behind a column. */
  ghost function Advanced(c: Column, v: DataValue, at: Cursors): Cursors {
    Cursors(at.fixed + (if v.Null? then 0 else Width(c.dataType)),
            at.variable + if FixedType(c.dataType) then 0
                          else match v case Text(t) => 4 + |t| case Blob(d) => 4 + |d| case _ => 0)
  }

  /** A column that was read is skipped by what its value takes. */
  lemma ColumnSkips(c: Column, v: DataValue, b: Data, at: Cursors)
    requires ColumnIs(c, v, b, at)
    ensures Skip(c, v.Null?, b, at) == Done(Advanced(c, v, at))
  {
    FixedTypeHasSize(c.dataType);
    if !v.Null? && !FixedType(c.dataType) { LengthIs(b, at.variable, |Payload(v)|); }
  }

  lemma BitIs(b: Data, i: nat)
    requires i / 8 < |b|
    ensures IsNullAt(b, i) <==> BitSet(b, i)
  {
    BitIsDigit(b[i / 8], i % 8);
  }

  ghost predicate KnownAt(columns: seq<Column>, record: Record, b: Data, i: nat)
    requires i < |columns| == |record| <= 8 * |b|
  {
    (BitSet(b, i) <==> record[i].Null?) && (record[i].Null? || !columns[i].dataType.Unknown?)
  }

  ghost predicate AllKnown(columns: seq<Column>, record: Record, b: Data)
    requires |columns| == |record| <= 8 * |b|
  {
    forall i :: 0 <= i < |columns| ==> KnownAt(columns, record, b, i)
  }

  /** The texts and blobs start behind the non-null fixed-length values. */
  lemma {:induction false} StartIs(columns: seq<Column>, record: Record, b: Data, n: nat)
    requires |record| == |columns| && BitmapSize(columns) <= |b| && n <= |columns|
    requires AllKnown(columns, record, b)
    ensures VariableStart(columns, b, n) == Done(BitmapSize(columns) + FixedBefore(columns, record, n))
  {
    if n > 0 {
      StartIs(columns, record, b, n - 1);
      assert KnownAt(columns, record, b, n - 1);
      StartNext(columns, record, b, n - 1, BitmapSize(columns) + FixedBefore(columns, record, n - 1));
    }
  }

  lemma StartNext(columns: seq<Column>, record: Record, b: Data, n: nat, start: nat)
    requires n < |columns| == |record| && BitmapSize(columns) <= |b| && KnownAt(columns, record, b, n)
    requires VariableStart(columns, b, n) == Done(start)
    ensures VariableStart(columns, b, n + 1) ==
            Done(start + if record[n].Null? then 0 else Width(columns[n].dataType))
  {
    BitIs(b, n);
    FixedTypeHasSize(columns[n].dataType);
  }

  /** The cursors before column `n` when the columns before it were read. */
  ghost predicate CursorsHere(columns: seq<Column>, record: Record, b: Data, start: nat, n: nat)
    requires |record| == |columns| && BitmapSize(columns) <= |b| && n <= |columns|
  {
    CursorsAt(columns, b, n) == Done(Offsets(columns, record, start, n))
  }

  lemma PrefixBefore(columns: seq<Column>, record: Record, b: Data, n: nat)
    requires |record| == |columns| && BitmapSize(columns) <= |b| && 0 < n <= |columns|
    requires DecodedPrefix(columns, b, n) == Done(record[..n])
    ensures DecodedPrefix(columns, b, n - 1) == Done(record[..n - 1])
  {
    assert record[..n][..n - 1] == record[..n - 1];
  }

  lemma ColumnNext(columns: seq<Column>, record: Record, b: Data, n: nat, at: Cursors)
    requires |record| == |columns| && BitmapSize(columns) <= |b| && n < |columns|
    requires DecodedPrefix(columns, b, n) == Done(record[..n]) && CursorsAt(columns, b, n) == Done(at)
    ensures DecodedPrefix(columns, b, n + 1) == Done(record[..n + 1]) <==>
            (BitSet(b, n) <==> record[n].Null?) && ColumnIs(columns[n], record[n], b, at)
  {
    assert record[..n + 1] == record[..n] + [record[n]];
    ValueNext(columns, b, n, at, record[..n], record[n]);
  }

  lemma ValueNext(columns: seq<Column>, b: Data, n: nat, at: Cursors, values: Record, v: DataValue)
    requires BitmapSize(columns) <= |b| && n < |columns|
    requires DecodedPrefix(columns, b, n) == Done(values) && CursorsAt(columns, b, n) == Done(at)
    ensures DecodedPrefix(columns, b, n + 1) == Done(values + [v]) <==>
            (BitSet(b, n) <==> v.Null?) && ColumnIs(columns[n], v, b, at)
  {
    BitIs(b, n);
    NeverReadsNull(columns[n], b, at);
    if !v.Null? { ColumnReads(columns[n], v, b, at); }
    LastDiffers(values, v, Null);
    var read := ReadColumn(columns[n], b, at);
    if read.Done? { LastDiffers(values, v, read.value); }
  }

  lemma LastDiffers(values: Record, v: DataValue, w: DataValue)
    ensures values + [v] == values + [w] <==> v == w
  {
    assert (values + [v])[|values|] == v && (values + [w])[|values|] == w;
  }

  lemma NeverReadsNull(c: Column, b: Data, at: Cursors)
    ensures ReadColumn(c, b, at) != Done(Null)
  {
  }

  lemma CursorsNext(columns: seq<Column>, record: Record, b: Data, start: nat, n: nat, at: Cursors)
    requires |record| == |columns| && BitmapSize(columns) <= |b| && n < |columns|
    requires CursorsAt(columns, b, n) == Done(at) && at == Offsets(columns, record, start, n)
    requires (BitSet(b, n) <==> record[n].Null?) && ColumnIs(columns[n], record[n], b, at)
    ensures CursorsHere(columns, record, b, start, n + 1)
  {
    BitIs(b, n);
    ColumnSkips(columns[n], record[n], b, at);
    OffsetsNext(columns, record, start, n);
  }

  lemma OffsetsNext(columns: seq<Column>, record: Record, start: nat, n: nat)
    requires n < |columns| && n < |record|
    ensures Offsets(columns, record, start, n + 1) ==
            Advanced(columns[n], record[n], Offsets(columns, record, start, n))
  {
  }

  lemma ReadNext(columns: seq<Column>, record: Record, b: Data, start: nat, n: nat, at: Cursors)
    requires |record| == |columns| && BitmapSize(columns) <= |b| && n < |columns|
    requires DecodedPrefix(columns, b, n) == Done(record[..n])
    requires CursorsAt(columns, b, n) == Done(at) && at == Offsets(columns, record, start, n)
    ensures DecodedPrefix(columns, b, n + 1) == Done(record[..n + 1]) <==> ReadsAt(columns, record, b, start, n)
    ensures ReadsAt(columns, record, b, start, n) ==> CursorsHere(columns, record, b, start, n + 1)
  {
    ColumnNext(columns, record, b, n, at);
    if ReadsAt(columns, record, b, start, n) { CursorsNext(columns, record, b, start, n, at); }
  }

  /** The first `n` columns give the first `n` values exactly when the bytes hold them. */
  ghost predicate PrefixIs(columns: seq<Column>, record: Record, b: Data, n: nat)
    requires |record| == |columns| && BitmapSize(columns) <= |b| && n <= |columns|
  {
    DecodedPrefix(columns, b, n) == Done(record[..n])
  }

  lemma {:induction false} ReadsBefore(columns: seq<Column>, record: Record, b: Data, start: nat, n: nat, i: nat)
    requires i < n <= |columns| <= 8 * |b| && |columns| == |record| && ReadsUpTo(columns, record, b, start, n)
    ensures ReadsAt(columns, record, b, start, i)
  {
    if i < n - 1 { ReadsBefore(columns, record, b, start, n - 1, i); }
  }

  lemma {:induction false} PrefixReads(columns: seq<Column>, record: Record, b: Data, start: nat, n: nat)
    requires |record| == |columns| && BitmapSize(columns) <= |b| && n <= |columns|
    requires CursorsHere(columns, record, b, start, 0) && PrefixIs(columns, record, b, 0)
    ensures PrefixIs(columns, record, b, n) <==> ReadsUpTo(columns, record, b, start, n)
    ensures PrefixIs(columns, record, b, n) ==> CursorsHere(columns, record, b, start, n)
  {
    if n > 0 {
      PrefixReads(columns, record, b, start, n - 1);
      PrefixNext(columns, record, b, start, n - 1);
    }
  }

  lemma PrefixNext(columns: seq<Column>, record: Record, b: Data, start: nat, n: nat)
    requires |record| == |columns| && BitmapSize(columns) <= |b| && n < |columns|
    ensures PrefixIs(columns, record, b, n + 1) ==> PrefixIs(columns, record, b, n)
    ensures PrefixIs(columns, record, b, n) && CursorsHere(columns, record, b, start, n) ==>
              && (PrefixIs(columns, record, b, n + 1) <==> ReadsAt(columns, record, b, start, n))
              && (ReadsAt(columns, record, b, start, n) ==> CursorsHere(columns, record, b, start, n + 1))
  {
    if PrefixIs(columns, record, b, n + 1) { PrefixBefore(columns, record, b, n + 1); }
    if PrefixIs(columns, record, b, n) && CursorsHere(columns, record, b, start, n) {
      ReadNext(columns, record, b, start, n, Offsets(columns, record, start, n));
    }
  }

  lemma ReadingStarts(columns: seq<Column>, record: Record, b: Data, start: nat)
    requires |record| == |columns| && BitmapSize(columns) <= |b|
    requires VariableStart(columns, b, |columns|) == Done(start)
    ensures CursorsHere(columns, record, b, start, 0) && PrefixIs(columns, record, b, 0)
  {
  }

  lemma ReadsFromStart(columns: seq<Column>, record: Record, b: Data, start: nat)
    requires |record| == |columns| && BitmapSize(columns) <= |b|
    requires VariableStart(columns, b, |columns|) == Done(start)
    ensures Decoded(columns, b) == Done(record) <==> ReadsUpTo(columns, record, b, start, |columns|)
  {
    assert record[..|columns|] == record;
    ReadingStarts(columns, record, b, start);
    PrefixReads(columns, record, b, start, |columns|);
  }

  /** Where the texts and blobs start when the columns are read from there. */
  lemma StartOfRead(columns: seq<Column>, record: Record, b: Data, end: nat)
    requires |record| == |columns| && BitmapSize(columns) <= |b| && AllKnown(columns, record, b)
    requires end == BitmapSize(columns) + FixedBefore(columns, record, |columns|)
    ensures VariableStart(columns, b, |columns|) == Done(end)
  {
    StartIs(columns, record, b, |columns|);
  }

  lemma ColumnsKnown(columns: seq<Column>, record: Record, b: Data, start: nat)
    requires |columns| == |record| <= 8 * |b| && ReadsUpTo(columns, record, b, start, |columns|)
    ensures AllKnown(columns, record, b)
  {
    forall i | 0 <= i < |columns| ensures KnownAt(columns, record, b, i) {
      ColumnKnown(columns, record, b, start, i);
    }
  }

  lemma ColumnKnown(columns: seq<Column>, record: Record, b: Data, start: nat, i: nat)
    requires i < |columns| <= 8 * |b| && |columns| == |record| && ReadsUpTo(columns, record, b, start, |columns|)
    ensures KnownAt(columns, record, b, i)
  {
    ReadsBefore(columns, record, b, start, |columns|, i);
  }

  /** On any bytes, reading gives a record exactly when the bytes are laid out as that record. */
  lemma ReadExactly(columns: seq<Column>, record: Record, b: Data)
    ensures Decoded(columns, b) == Done(record) <==> ReadsAs(columns, record, b)
  {
    if BitmapSize(columns) <= |b| && |record| == |columns| {
      if Decoded(columns, b) == Done(record) { ReadIsLaidOut(columns, record, b); }
      if ReadsAs(columns, record, b) { LaidOutIsRead(columns, record, b); }
    }
  }

  lemma ReadIsLaidOut(columns: seq<Column>, record: Record, b: Data)
    requires |record| == |columns| && BitmapSize(columns) <= |b| && Decoded(columns, b) == Done(record)
    ensures ReadsAs(columns, record, b)
  {
    NothingReadWithoutStart(columns, b, |columns|);
    var start: nat :| VariableStart(columns, b, |columns|) == Done(start);
    ReadsFromStart(columns, record, b, start);
    ColumnsKnown(columns, record, b, start);
    StartOfRead(columns, record, b, BitmapSize(columns) + FixedBefore(columns, record, |columns|));
  }

  lemma LaidOutIsRead(columns: seq<Column>, record: Record, b: Data)
    requires ReadsAs(columns, record, b)
    ensures Decoded(columns, b) == Done(record)
  {
    var start := BitmapSize(columns) + FixedBefore(columns, record, |columns|);
    ColumnsKnown(columns, record, b, start);
    StartOfRead(columns, record, b, start);
    ReadsFromStart(columns, record, b, start);
  }

  lemma {:induction false} NothingReadWithoutStart(columns: seq<Column>, b: Data, n: nat)
    requires BitmapSize(columns) <= |b| && n <= |columns|
    ensures DecodedPrefix(columns, b, n).Done? ==> VariableStart(columns, b, |columns|).Done?
  {
    if n > 0 { NothingReadWithoutStart(columns, b, n - 1); }
  }

  // ---------------------------------------------------------------- nulls that are not allowed

  /** The columns, each of them nullable. */
  function Nullable(columns: seq<Column>): (open: seq<Column>)
    ensures |open| == |columns|
  {
    seq(|columns|, i requires 0 <= i < |columns| => columns[i].(nullable := true))
  }

  ghost predicate RefusedAt(columns: seq<Column>, record: Record, i: nat)
    requires i < |columns| == |record|
  {
    record[i].Null? && !columns[i].nullable
  }

  lemma {:induction false} OpenStart(columns: seq<Column>, b: Data, n: nat)
    requires BitmapSize(columns) <= |b| && n <= |columns|
    ensures VariableStart(Nullable(columns), b, n) == VariableStart(columns, b, n)
  {
    if n > 0 { OpenStart(columns, b, n - 1); }
  }

  lemma {:induction false} OpenCursors(columns: seq<Column>, b: Data, n: nat)
    requires BitmapSize(columns) <= |b| && n <= |columns|
    ensures CursorsAt(Nullable(columns), b, n) == CursorsAt(columns, b, n)
  {
    if n == 0 {
      OpenStart(columns, b, |columns|);
    } else {
      OpenCursors(columns, b, n - 1);
      OpenCursorsNext(columns, b, n - 1);
    }
  }

  lemma OpenCursorsNext(columns: seq<Column>, b: Data, n: nat)
    requires BitmapSize(columns) <= |b| && n < |columns|
    requires CursorsAt(Nullable(columns), b, n) == CursorsAt(columns, b, n)
    ensures CursorsAt(Nullable(columns), b, n + 1) == CursorsAt(columns, b, n + 1)
  {
    if CursorsAt(columns, b, n).Done? { OpenSkips(columns[n], IsNullAt(b, n), b, CursorsAt(columns, b, n).value); }
  }

  lemma OpenSkips(c: Column, isNull: bool, b: Data, at: Cursors)
    ensures Skip(c.(nullable := true), isNull, b, at) == Skip(c, isNull, b, at)
  {
  }

  lemma OpenNext(columns: seq<Column>, record: Record, b: Data, n: nat)
    requires |record| == |columns| && BitmapSize(columns) <= |b| && n < |columns|
    requires DecodedPrefix(Nullable(columns), b, n + 1) == Done(record[..n + 1])
    requires DecodedPrefix(columns, b, n) == Done(record[..n])
    ensures DecodedPrefix(columns, b, n + 1) ==
            if RefusedAt(columns, record, n) then Failed(NullValueForNonNullColumnFound) else Done(record[..n + 1])
  {
    OpenCursors(columns, b, n);
    PrefixBefore(Nullable(columns), record, b, n + 1);
    OpenReads(columns[n], b, CursorsAt(columns, b, n).value);
    var value := record[..n + 1][n];
    assert value == record[n] && record[..n + 1] == record[..n] + [value];
  }

  lemma OpenReads(c: Column, b: Data, at: Cursors)
    ensures ReadColumn(c.(nullable := true), b, at) == ReadColumn(c, b, at) != Done(Null)
  {
  }

  ghost predicate AnyRefused(columns: seq<Column>, record: Record, n: nat)
    requires n <= |columns| == |record|
  {
    n > 0 && (AnyRefused(columns, record, n - 1) || RefusedAt(columns, record, n - 1))
  }

  lemma {:induction false} RefusedSomewhere(columns: seq<Column>, record: Record, n: nat)
    requires n <= |columns| == |record|
    ensures AnyRefused(columns, record, n) <==> exists i :: 0 <= i < n && RefusedAt(columns, record, i)
  {
    if n > 0 { RefusedSomewhere(columns, record, n - 1); }
  }

  /** What the first `n` columns answer for nulls that may be refused. */
  ghost predicate OpenAnswer(columns: seq<Column>, record: Record, b: Data, n: nat)
    requires |record| == |columns| && BitmapSize(columns) <= |b| && n <= |columns|
  {
    DecodedPrefix(columns, b, n) ==
    if AnyRefused(columns, record, n) then Failed(NullValueForNonNullColumnFound) else Done(record[..n])
  }

  lemma OpenStep(columns: seq<Column>, record: Record, b: Data, n: nat)
    requires |record| == |columns| && BitmapSize(columns) <= |b| && n < |columns|
    requires DecodedPrefix(Nullable(columns), b, n + 1) == Done(record[..n + 1]) && OpenAnswer(columns, record, b, n)
    ensures OpenAnswer(columns, record, b, n + 1)
  {
    if !AnyRefused(columns, record, n) { OpenNext(columns, record, b, n); }
  }

  lemma {:induction false} OpenPrefix(columns: seq<Column>, record: Record, b: Data, n: nat)
    requires |record| == |columns| && BitmapSize(columns) <= |b| && n <= |columns|
    requires DecodedPrefix(Nullable(columns), b, n) == Done(record[..n])
    ensures OpenAnswer(columns, record, b, n)
  {
    if n == 0 {
      OpenCursors(columns, b, 0);
    } else {
      PrefixBefore(Nullable(columns), record, b, n);
      OpenPrefix(columns, record, b, n - 1);
      OpenStep(columns, record, b, n - 1);
    }
  }

  /** Bytes that would be read as a record if every column were nullable are refused exactly when a
      column that is not nullable has a null, and then with the error for it. */
  lemma NullsRefused(columns: seq<Column>, record: Record, b: Data)
    requires ReadsAs(Nullable(columns), record, b)
    ensures Decoded(columns, b) ==
            if exists i :: 0 <= i < |columns| && RefusedAt(columns, record, i)
            then Failed(NullValueForNonNullColumnFound) else Done(record)
  {
    ReadExactly(Nullable(columns), record, b);
    assert record[..|columns|] == record;
    OpenPrefix(columns, record, b, |columns|);
    RefusedSomewhere(columns, record, |columns|);
  }

  lemma {:induction false} OpenBitmap(columns: seq<Column>, record: Record, n: nat)
    requires n <= |columns| <= |record|
    ensures Bitmap(Nullable(columns), record, n) == Bitmap(columns, record, n)
  {
    if n > 0 { OpenBitmap(columns, record, n - 1); }
  }

  lemma OpenEncoded(columns: seq<Column>, record: Record)
    requires AllFit(columns, record)
    ensures AllFit(Nullable(columns), record) && Encoded(Nullable(columns), record) == Encoded(columns, record)
  {
    OpenBitmap(columns, record, |columns|);
    forall i | 0 <= i < |columns| ensures Fits(Nullable(columns)[i], record[i]) {
      assert Fits(columns[i], record[i]);
    }
    assert FixedFields(Nullable(columns), record) == FixedFields(columns, record);
    assert VariableFields(Nullable(columns), record) == VariableFields(columns, record);
  }

  /** The writer lets a null through for any column; the reader then answers with an error. */
  lemma WrittenNullsRefused(columns: seq<Column>, record: Record)
    requires |record| == |columns|
    requires forall i :: 0 <= i < |columns| ==> record[i].Null? || Matches(columns[i].dataType, record[i])
    ensures Serialized(columns, record).Done?
    ensures Decoded(columns, Serialized(columns, record).value) ==
            if exists i :: 0 <= i < |columns| && RefusedAt(columns, record, i)
            then Failed(NullValueForNonNullColumnFound) else Done(record)
  {
    assert Storable(Nullable(columns), record);
    StorableFits(Nullable(columns), record);
    forall i | 0 <= i < |columns| ensures Fits(columns[i], record[i]) {
      assert Fits(Nullable(columns)[i], record[i]);
    }
    OpenEncoded(columns, record);
    RoundTripExactly(Nullable(columns), record);
    ReadExactly(Nullable(columns), record, Encoded(columns, record));
    NullsRefused(columns, record, Encoded(columns, record));
  }

  // ---------------------------------------------------------------- writing any values

  /** Bytes a value of a fixed-length variant is written as. */
  function WrittenWidth(v: DataValue): nat {
    match v
    case Int(_) => 4
    case BigInt(_) => 8
    case DateTime(_) => 8
    case Float(_) => 8
    case Decimal(_) => 16
    case _ => 0
  }

  predicate HasPayload(v: DataValue) { v.Text? || v.Blob? }

  /** A value can be written where the column is of a fixed-length type and the value as long as it, where
      it is false or true, or where it is a text or blob and the column is not of a fixed-length type. */
  predicate Writable(c: Column, v: DataValue) {
    if v.Null? then true
    else if FixedType(c.dataType) then v.Boolean? || WrittenWidth(v) == Width(c.dataType)
    else HasPayload(v)
  }

  lemma FitsExactly(c: Column, v: DataValue)
    ensures Fits(c, v) <==> Writable(c, v)
  {
    FixedTypeHasSize(c.dataType);
  }

  /** A record can be written exactly when every column can be given its value. */
  lemma WrittenExactly(columns: seq<Column>, record: Record)
    ensures Serialized(columns, record).Done? <==>
            |columns| <= |record| && forall i :: 0 <= i < |columns| ==> Writable(columns[i], record[i])
    ensures Serialized(columns, record).Done? ==>
              AllFit(columns, record) && Serialized(columns, record).value == Encoded(columns, record)
    ensures |record| < |columns| ==> Serialized(columns, record).Panicked?
  {
    if |columns| <= |record| {
      forall i | 0 <= i < |columns| ensures Fits(columns[i], record[i]) <==> Writable(columns[i], record[i]) {
        FitsExactly(columns[i], record[i]);
      }
    }
  }

  /** A text or blob in column `k`, which is not of a fixed-length type. */
  ghost predicate PayloadAt(columns: seq<Column>, record: Record, k: nat)
    requires k < |columns| <= |record|
  {
    !FixedType(columns[k].dataType) && HasPayload(record[k])
  }

  lemma {:induction false} MoreLengths(columns: seq<Column>, record: Record, j: nat, n: nat)
    requires j <= n <= |columns| <= |record|
    ensures |Lengths(columns, record, j)| <= |Lengths(columns, record, n)|
    ensures |Lengths(columns, record, j)| < |Lengths(columns, record, n)| <==>
            exists k :: j <= k < n && PayloadAt(columns, record, k)
  {
    if j < n {
      MoreLengths(columns, record, j, n - 1);
      FixedTypeHasSize(columns[n - 1].dataType);
      assert PayloadAt(columns, record, n - 1) <==> HasLength(columns[n - 1], record[n - 1]);
    }
  }

  /** What the first value that cannot be written answers. In a column of a fixed-length type a text or
      blob is a type mismatch, and a value of another length a panic. In another column the value is a
      type mismatch if a text or blob comes after it, whose length stands in for the missing one, and a
      panic if none does. */
  lemma MisfitAnswers(columns: seq<Column>, record: Record, j: nat)
    requires j < |columns| <= |record| && !Writable(columns[j], record[j])
    requires forall i :: 0 <= i < j ==> Writable(columns[i], record[i])
    ensures Serialized(columns, record) ==
            if (if FixedType(columns[j].dataType) then HasPayload(record[j])
                else exists k :: j < k < |columns| && PayloadAt(columns, record, k))
            then Failed(DataTypeMismatch) else Panicked
  {
    forall i | 0 <= i < |columns| ensures Fits(columns[i], record[i]) <==> Writable(columns[i], record[i]) {
      FitsExactly(columns[i], record[i]);
    }
    assert FirstMisfit(columns, record, 0) == j;
    FixedTypeHasSize(columns[j].dataType);
    MoreLengths(columns, record, j, |columns|);
    assert !PayloadAt(columns, record, j);
  }
}
