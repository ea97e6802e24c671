/** Taking the key out of an encoded record without reading all of it. */
module KeyExtraction {
  import opened Bytes
  import opened Outcomes
  import opened DataModel
  import opened PrimaryKeys
  import opened RecordFormat
  import opened RoundTrip

  /** Progress of the scan: key columns met, cursors, key values with Null for those not met. */
  datatype Scan = Scan(found: nat, at: Cursors, values: Key)

  function Nulls(n: nat): (key: Key)
    ensures |key| == n && forall j :: 0 <= j < n ==> key[j].Null?
  {
    seq(n, _ => Null)
  }

  /** One column of the scan, when there are still key columns to find. */
  function ScanColumn(c: Column, isNull: bool, keyNames: seq<string>, bytes: Data, s: Scan)
    : Outcome<Scan, SerializationError>
    requires |s.values| == |keyNames|
  {
    if isNull then
      if c.name in keyNames then Failed(NullPrimaryKeyColumnValue) else Done(s)
    else if c.name in keyNames then
      match ReadColumn(c, bytes, s.at)
      case Done(v) =>
        (match Skip(c, false, bytes, s.at)
         case Done(next) => Done(Scan(s.found + 1, next, s.values[Position(keyNames, c.name) := v]))
         case _ => Panicked)
      case _ => Panicked
    else
      match Skip(c, false, bytes, s.at)
      case Done(next) => Done(s.(at := next))
      case _ => Panicked
  }

  /** The scan over the first `n` columns, which stops moving once every key column is found. */
  function Scanned(columns: seq<Column>, keyNames: seq<string>, bytes: Data, n: nat)
    : (r: Outcome<Scan, SerializationError>)
    requires n <= |columns| && BitmapSize(columns) <= |bytes|
    ensures r.Done? ==> |r.value.values| == |keyNames|
  {
    if n == 0 then
      match CursorsAt(columns, bytes, 0)
      case Done(at) => Done(Scan(0, at, Nulls(|keyNames|)))
      case _ => Panicked
    else
      match Scanned(columns, keyNames, bytes, n - 1)
      case Failed(e) => Failed(e)
      case Panicked => Panicked
      case Done(s) =>
        if s.found >= |keyNames| then Done(s)
        else ScanColumn(columns[n - 1], IsNullAt(bytes, n - 1), keyNames, bytes, s)
  }

  function KeyOf(columns: seq<Column>, keyNames: seq<string>, bytes: Data): Outcome<Key, SerializationError> {
    if |bytes| < BitmapSize(columns) then Panicked
    else
      match Scanned(columns, keyNames, bytes, |columns|)
      case Done(s) => Done(s.values)
      case Failed(e) => Failed(e)
      case Panicked => Panicked
  }

  /** `deserialize_primary_key`; a listed name that is no column panics. */
  function PrimaryKeyOf(table: Table, bytes: Data): Outcome<Key, SerializationError> {
    match table.primaryKey
    case None => Failed(PrimaryKeyNotFound)
    case Some(keyNames) =>
      if exists j :: 0 <= j < |keyNames| && keyNames[j] !in Names(table.columns) then Panicked
      else KeyOf(table.columns, keyNames, bytes)
  }

  // ---------------------------------------------------------------- key columns met so far

  ghost function Met(columns: seq<Column>, keyNames: seq<string>, n: nat): (s: set<nat>)
    ensures forall j: nat :: j in s <==> j < |keyNames| && KeyColumn(columns, keyNames, j) < n
  {
    set j: nat | j < |keyNames| && KeyColumn(columns, keyNames, j) < n
  }

  ghost function Upto(n: nat): (s: set<nat>)
    ensures |s| == n && forall j: nat :: j in s <==> j < n
  {
    if n == 0 then {} else Upto(n - 1) + {n - 1}
  }

  lemma AllMet(columns: seq<Column>, keyNames: seq<string>, n: nat)
    requires |Met(columns, keyNames, n)| >= |keyNames|
    ensures forall j :: 0 <= j < |keyNames| ==> KeyColumn(columns, keyNames, j) < n
  {
    var met, all := Met(columns, keyNames, n), Upto(|keyNames|);
    assert met <= all;
    assert all == met + (all - met);
    assert |all| == |met| + |all - met|;
    assert all - met == {};
    forall j | 0 <= j < |keyNames| ensures KeyColumn(columns, keyNames, j) < n {
      assert j in all && j !in all - met;
    }
  }

  lemma MetNext(columns: seq<Column>, keyNames: seq<string>, n: nat)
    requires WellNamed(columns, keyNames) && 0 < n <= |columns|
    ensures columns[n - 1].name in keyNames ==>
              var k := Position(keyNames, columns[n - 1].name);
              && k < |keyNames| && KeyColumn(columns, keyNames, k) == n - 1
              && Met(columns, keyNames, n) == Met(columns, keyNames, n - 1) + {k}
              && k !in Met(columns, keyNames, n - 1)
    ensures columns[n - 1].name !in keyNames ==> Met(columns, keyNames, n) == Met(columns, keyNames, n - 1)
  {
    forall j: nat | j < |keyNames|
      ensures KeyColumn(columns, keyNames, j) == n - 1 <==> columns[n - 1].name == keyNames[j]
    {
      ColumnIsUnique(columns, keyNames, j, n - 1);
    }
    if columns[n - 1].name in keyNames {
      var k := Position(keyNames, columns[n - 1].name);
      forall j: nat | j < |keyNames| && KeyColumn(columns, keyNames, j) == n - 1 ensures j == k {
        assert keyNames[j] == keyNames[k];
      }
    } else {
      forall j: nat | j < |keyNames| ensures KeyColumn(columns, keyNames, j) != n - 1 {
        assert keyNames[j] in keyNames;
      }
    }
  }

  // ---------------------------------------------------------------- agreement with full decoding

  ghost predicate NullMet(columns: seq<Column>, keyNames: seq<string>, record: Record, n: nat)
    requires |record| == |columns|
    requires forall j :: 0 <= j < |keyNames| ==> KeyColumn(columns, keyNames, j) < |columns|
  {
    exists j :: 0 <= j < |keyNames| && KeyColumn(columns, keyNames, j) < n
        && record[KeyColumn(columns, keyNames, j)].Null?
  }

  /** Key values met are those of the record, the others are still Null. */
  ghost predicate ValuesMet(columns: seq<Column>, keyNames: seq<string>, record: Record, n: nat, values: Key)
    requires |record| == |columns| && |values| == |keyNames|
    requires forall j :: 0 <= j < |keyNames| ==> KeyColumn(columns, keyNames, j) < |columns|
  {
    forall j :: 0 <= j < |keyNames| ==>
      values[j] == if KeyColumn(columns, keyNames, j) < n then record[KeyColumn(columns, keyNames, j)] else Null
  }

  lemma {:induction false} PrefixIsPrefix(columns: seq<Column>, bytes: Data, n: nat, m: nat)
    requires n <= m <= |columns| && BitmapSize(columns) <= |bytes| && DecodedPrefix(columns, bytes, m).Done?
    ensures DecodedPrefix(columns, bytes, n) == Done(DecodedPrefix(columns, bytes, m).value[..n])
  {
    var values := DecodedPrefix(columns, bytes, m).value;
    if n == m {
      assert values[..n] == values;
    } else {
      PrefixIsPrefix(columns, bytes, n, m - 1);
      assert values[..n] == DecodedPrefix(columns, bytes, m - 1).value[..n];
    }
  }

  /** What full decoding found out about column `n`. */
  lemma DecodedColumn(columns: seq<Column>, bytes: Data, record: Record, n: nat)
    requires BitmapSize(columns) <= |bytes| && n < |columns|
    requires DecodedPrefix(columns, bytes, |columns|) == Done(record)
    ensures CursorsAt(columns, bytes, n).Done? && CursorsAt(columns, bytes, n + 1).Done?
    ensures CursorsAt(columns, bytes, n + 1) ==
            Skip(columns[n], IsNullAt(bytes, n), bytes, CursorsAt(columns, bytes, n).value)
    ensures if IsNullAt(bytes, n) then record[n].Null?
            else
              && ReadColumn(columns[n], bytes, CursorsAt(columns, bytes, n).value) == Done(record[n])
              && !record[n].Null?
  {
    PrefixIsPrefix(columns, bytes, n, |columns|);
    PrefixIsPrefix(columns, bytes, n + 1, |columns|);
    assert record[..n + 1][n] == record[n];
    assert record[..n + 1][..n] == record[..n];
    if !IsNullAt(bytes, n) { ReadIsTyped(columns[n], bytes, CursorsAt(columns, bytes, n).value); }
  }

  /** Invariant of the scan on bytes that decode: what it has answered after `n` columns. */
  ghost predicate ScanIs(columns: seq<Column>, keyNames: seq<string>, bytes: Data, record: Record, n: nat,
                         r: Outcome<Scan, SerializationError>)
    requires BitmapSize(columns) <= |bytes| && n <= |columns| == |record|
    requires r.Done? ==> |r.value.values| == |keyNames|
    requires forall j :: 0 <= j < |keyNames| ==> KeyColumn(columns, keyNames, j) < |columns|
  {
    if NullMet(columns, keyNames, record, n) then r == Failed(NullPrimaryKeyColumnValue)
    else
      && r.Done?
      && r.value.found == |Met(columns, keyNames, n)|
      && (r.value.found < |keyNames| ==> CursorsAt(columns, bytes, n) == Done(r.value.at))
      && ValuesMet(columns, keyNames, record, n, r.value.values)
  }

  lemma {:induction false} ScanAgrees(columns: seq<Column>, keyNames: seq<string>, bytes: Data, record: Record, n: nat)
    requires BitmapSize(columns) <= |bytes| && n <= |columns|
    requires DecodedPrefix(columns, bytes, |columns|) == Done(record)
    requires WellNamed(columns, keyNames) && |record| == |columns|
    requires forall j :: 0 <= j < |keyNames| ==> KeyColumn(columns, keyNames, j) < |columns|
    ensures ScanIs(columns, keyNames, bytes, record, n, Scanned(columns, keyNames, bytes, n))
  {
    if n == 0 {
      PrefixIsPrefix(columns, bytes, 0, |columns|);
      assert Met(columns, keyNames, 0) == {};
    } else {
      ScanAgrees(columns, keyNames, bytes, record, n - 1);
      ScanNextAgrees(columns, keyNames, bytes, record, n, Scanned(columns, keyNames, bytes, n - 1));
    }
  }

  lemma ScanNextAgrees(columns: seq<Column>, keyNames: seq<string>, bytes: Data, record: Record, n: nat,
                       before: Outcome<Scan, SerializationError>)
    requires BitmapSize(columns) <= |bytes| && 0 < n <= |columns| == |record|
    requires DecodedPrefix(columns, bytes, |columns|) == Done(record)
    requires WellNamed(columns, keyNames) && before == Scanned(columns, keyNames, bytes, n - 1)
    requires forall j :: 0 <= j < |keyNames| ==> KeyColumn(columns, keyNames, j) < |columns|
    requires ScanIs(columns, keyNames, bytes, record, n - 1, before)
    ensures ScanIs(columns, keyNames, bytes, record, n, Scanned(columns, keyNames, bytes, n))
  {
    if before.Failed? {
      assert NullMet(columns, keyNames, record, n - 1);
    } else if before.value.found >= |keyNames| {
      ScanFinished(columns, keyNames, bytes, record, n, before.value);
    } else {
      DecodedColumn(columns, bytes, record, n - 1);
      var next := ScanColumn(columns[n - 1], IsNullAt(bytes, n - 1), keyNames, bytes, before.value);
      ScanStep(columns, keyNames, bytes, record, n, before.value, next);
    }
  }

  lemma KeyColumnsExist(columns: seq<Column>, keyNames: seq<string>)
    requires WellNamed(columns, keyNames)
    ensures forall j :: 0 <= j < |keyNames| ==> KeyColumn(columns, keyNames, j) < |columns|
  {
    forall j | 0 <= j < |keyNames| ensures KeyColumn(columns, keyNames, j) < |columns| {
      assert keyNames[j] in Names(columns);
    }
  }

  lemma ScanFinished(columns: seq<Column>, keyNames: seq<string>, bytes: Data, record: Record, n: nat, s: Scan)
    requires BitmapSize(columns) <= |bytes| && 0 < n <= |columns| == |record| && |s.values| == |keyNames|
    requires forall j :: 0 <= j < |keyNames| ==> KeyColumn(columns, keyNames, j) < |columns|
    requires |keyNames| <= s.found == |Met(columns, keyNames, n - 1)|
    requires !NullMet(columns, keyNames, record, n - 1) && ValuesMet(columns, keyNames, record, n - 1, s.values)
    ensures ScanIs(columns, keyNames, bytes, record, n, Done(s))
  {
    AllMet(columns, keyNames, n - 1);
    assert Met(columns, keyNames, n) == Met(columns, keyNames, n - 1);
  }

  lemma ScanStep(columns: seq<Column>, keyNames: seq<string>, bytes: Data, record: Record, n: nat, s: Scan,
                 next: Outcome<Scan, SerializationError>)
    requires BitmapSize(columns) <= |bytes| && 0 < n <= |columns| == |record|
    requires WellNamed(columns, keyNames) && |s.values| == |keyNames| && s.found < |keyNames|
    requires forall j :: 0 <= j < |keyNames| ==> KeyColumn(columns, keyNames, j) < |columns|
    requires ScanIs(columns, keyNames, bytes, record, n - 1, Done(s))
    requires CursorsAt(columns, bytes, n).Done?
    requires CursorsAt(columns, bytes, n) == Skip(columns[n - 1], IsNullAt(bytes, n - 1), bytes, s.at)
    requires if IsNullAt(bytes, n - 1) then record[n - 1].Null?
             else ReadColumn(columns[n - 1], bytes, s.at) == Done(record[n - 1]) && !record[n - 1].Null?
    requires next == ScanColumn(columns[n - 1], IsNullAt(bytes, n - 1), keyNames, bytes, s)
    ensures next.Done? ==> |next.value.values| == |keyNames|
    ensures ScanIs(columns, keyNames, bytes, record, n, next)
  {
    MetNext(columns, keyNames, n);
    var at := CursorsAt(columns, bytes, n).value;
    if columns[n - 1].name in keyNames {
      var k := Position(keyNames, columns[n - 1].name);
      KeyColumnScanned(columns[n - 1], IsNullAt(bytes, n - 1), keyNames, bytes, s, record[n - 1], at);
      ScanKeyColumn(columns, keyNames, bytes, record, n, s, k, at, next);
    } else {
      OtherColumnScanned(columns[n - 1], IsNullAt(bytes, n - 1), keyNames, bytes, s, at);
      ScanOtherColumn(columns, keyNames, bytes, record, n, s, at);
    }
  }

  lemma KeyColumnScanned(c: Column, isNull: bool, keyNames: seq<string>, bytes: Data, s: Scan, v: DataValue,
                         next: Cursors)
    requires |s.values| == |keyNames| && c.name in keyNames
    requires isNull ==> v.Null?
    requires !isNull ==> !v.Null? && ReadColumn(c, bytes, s.at) == Done(v) && Skip(c, false, bytes, s.at) == Done(next)
    ensures ScanColumn(c, isNull, keyNames, bytes, s) ==
            if v.Null? then Failed(NullPrimaryKeyColumnValue)
            else Done(Scan(s.found + 1, next, s.values[Position(keyNames, c.name) := v]))
  {
  }

  lemma OtherColumnScanned(c: Column, isNull: bool, keyNames: seq<string>, bytes: Data, s: Scan, next: Cursors)
    requires |s.values| == |keyNames| && c.name !in keyNames && Skip(c, isNull, bytes, s.at) == Done(next)
    ensures ScanColumn(c, isNull, keyNames, bytes, s) == Done(s.(at := next))
  {
  }

  lemma ScanKeyColumn(columns: seq<Column>, keyNames: seq<string>, bytes: Data, record: Record, n: nat, s: Scan, k: nat,
                      at: Cursors, next: Outcome<Scan, SerializationError>)
    requires BitmapSize(columns) <= |bytes| && 0 < n <= |columns| == |record|
    requires forall j :: 0 <= j < |keyNames| ==> KeyColumn(columns, keyNames, j) < |columns|
    requires |s.values| == |keyNames| && s.found == |Met(columns, keyNames, n - 1)|
    requires !NullMet(columns, keyNames, record, n - 1) && ValuesMet(columns, keyNames, record, n - 1, s.values)
    requires k < |keyNames| && KeyColumn(columns, keyNames, k) == n - 1
    requires Met(columns, keyNames, n) == Met(columns, keyNames, n - 1) + {k} && k !in Met(columns, keyNames, n - 1)
    requires CursorsAt(columns, bytes, n) == Done(at)
    requires next == if record[n - 1].Null? then Failed(NullPrimaryKeyColumnValue)
                     else Done(Scan(s.found + 1, at, s.values[k := record[n - 1]]))
    ensures ScanIs(columns, keyNames, bytes, record, n, next)
  {
    MetOne(columns, keyNames, n, k);
    NullMetNext(columns, keyNames, record, n, k);
    ValuesMetNext(columns, keyNames, record, n, k, s.values);
    assert |Met(columns, keyNames, n)| == s.found + 1;
  }

  /** Column `n - 1` holds key value `k` and no other. */
  ghost predicate MeetsOne(columns: seq<Column>, keyNames: seq<string>, n: nat, k: nat)
    requires n > 0
  {
    && k < |keyNames| && KeyColumn(columns, keyNames, k) == n - 1
    && forall j :: 0 <= j < |keyNames| ==>
         (KeyColumn(columns, keyNames, j) < n <==> KeyColumn(columns, keyNames, j) < n - 1 || j == k)
  }

  lemma MetOne(columns: seq<Column>, keyNames: seq<string>, n: nat, k: nat)
    requires 0 < n && k < |keyNames| && KeyColumn(columns, keyNames, k) == n - 1
    requires Met(columns, keyNames, n) == Met(columns, keyNames, n - 1) + {k}
    ensures MeetsOne(columns, keyNames, n, k)
  {
    forall j: nat | j < |keyNames|
      ensures KeyColumn(columns, keyNames, j) < n <==> KeyColumn(columns, keyNames, j) < n - 1 || j == k
    {
      assert j in Met(columns, keyNames, n) <==> j in Met(columns, keyNames, n - 1) || j == k;
    }
  }

  lemma NullMetNext(columns: seq<Column>, keyNames: seq<string>, record: Record, n: nat, k: nat)
    requires 0 < n <= |columns| == |record| && MeetsOne(columns, keyNames, n, k)
    requires forall j :: 0 <= j < |keyNames| ==> KeyColumn(columns, keyNames, j) < |columns|
    requires !NullMet(columns, keyNames, record, n - 1)
    ensures NullMet(columns, keyNames, record, n) <==> record[n - 1].Null?
  {
    if record[n - 1].Null? { assert record[KeyColumn(columns, keyNames, k)].Null?; }
  }

  lemma ValuesMetNext(columns: seq<Column>, keyNames: seq<string>, record: Record, n: nat, k: nat, values: Key)
    requires 0 < n <= |columns| == |record| && MeetsOne(columns, keyNames, n, k) && |values| == |keyNames|
    requires forall j :: 0 <= j < |keyNames| ==> KeyColumn(columns, keyNames, j) < |columns|
    requires ValuesMet(columns, keyNames, record, n - 1, values)
    ensures ValuesMet(columns, keyNames, record, n, values[k := record[n - 1]])
  {
  }

  lemma ScanOtherColumn(columns: seq<Column>, keyNames: seq<string>, bytes: Data, record: Record, n: nat, s: Scan,
                        at: Cursors)
    requires BitmapSize(columns) <= |bytes| && 0 < n <= |columns| == |record|
    requires forall j :: 0 <= j < |keyNames| ==> KeyColumn(columns, keyNames, j) < |columns|
    requires |s.values| == |keyNames| && s.found == |Met(columns, keyNames, n - 1)|
    requires !NullMet(columns, keyNames, record, n - 1) && ValuesMet(columns, keyNames, record, n - 1, s.values)
    requires Met(columns, keyNames, n) == Met(columns, keyNames, n - 1)
    requires CursorsAt(columns, bytes, n) == Done(at)
    ensures ScanIs(columns, keyNames, bytes, record, n, Done(s.(at := at)))
  {
    forall j: nat | j < |keyNames|
      ensures KeyColumn(columns, keyNames, j) < n <==> KeyColumn(columns, keyNames, j) < n - 1
    {
      assert j in Met(columns, keyNames, n) <==> j in Met(columns, keyNames, n - 1);
    }
  }

  /** On any bytes that decode to a record, the early-exit scan gives the projection of the record
      on the key, whatever order the key lists its columns in, and it fails exactly when one of
      them is null. */
  lemma KeyAgrees(columns: seq<Column>, keyNames: seq<string>, bytes: Data, record: Record)
    requires WellNamed(columns, keyNames)
    requires Decoded(columns, bytes) == Done(record)
    ensures |record| == |columns|
    ensures KeyOf(columns, keyNames, bytes) ==
            var key := Projection(columns, keyNames, record);
            if exists j :: 0 <= j < |key| && key[j].Null? then Failed(NullPrimaryKeyColumnValue) else Done(key)
  {
    KeyColumnsExist(columns, keyNames);
    ScanAgrees(columns, keyNames, bytes, record, |columns|);
    var key := Projection(columns, keyNames, record);
    if NullMet(columns, keyNames, record, |columns|) {
      var j :| 0 <= j < |keyNames| && record[KeyColumn(columns, keyNames, j)].Null?;
      assert key[j].Null?;
    } else {
      assert Scanned(columns, keyNames, bytes, |columns|).value.values == key;
      forall j | 0 <= j < |key| ensures !key[j].Null? {
        assert KeyColumn(columns, keyNames, j) < |columns|;
      }
    }
  }

  /** The key of a stored record is the key taken from the record itself, when its key values are
      not null and the key lists its columns in schema order. */
  lemma StoredKeyIsRecordKey(table: Table, record: Record)
    requires table.primaryKey.Some? && WellNamed(table.columns, table.primaryKey.value)
    requires InSchemaOrder(table.columns, table.primaryKey.value)
    requires Storable(table.columns, record)
    requires forall j :: 0 <= j < |table.primaryKey.value| ==>
               !Projection(table.columns, table.primaryKey.value, record)[j].Null?
    ensures AllFit(table.columns, record)
    ensures PrimaryKey(record, table).Done?
    ensures PrimaryKeyOf(table, Encoded(table.columns, record)) == Done(PrimaryKey(record, table).value)
  {
    StorableFits(table.columns, record);
    RoundTripExactly(table.columns, record);
    KeyAgrees(table.columns, table.primaryKey.value, Encoded(table.columns, record), record);
    PrimaryKeyExactly(record, table);
  }
}
