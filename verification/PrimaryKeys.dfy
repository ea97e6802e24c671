/** Primary keys taken from records, `Record::get_primary_key`. */
module PrimaryKeys {
  import opened Outcomes
  import opened DataModel

  /** Index the reverse lookup holds for a listed name: the last one when a name is listed twice. */
  function LookupIndex(keyNames: seq<string>, name: string): (i: nat)
    requires name in keyNames
    ensures i < |keyNames| && keyNames[i] == name
  {
    var last := |keyNames| - 1;
    if keyNames[last] == name then last else LookupIndex(keyNames[..last], name)
  }

  /** The key values collected from the first `n` columns; `Vec::insert` past the end panics, and so
      does reading past the end of the record. */
  function Collected(columns: seq<Column>, keyNames: seq<string>, record: Record, n: nat): Outcome<Key, ()>
    requires n <= |columns|
  {
    if n == 0 then Done([])
    else
      match Collected(columns, keyNames, record, n - 1)
      case Failed(e) => Failed(e)
      case Panicked => Panicked
      case Done(values) =>
        if columns[n - 1].name !in keyNames then Done(values)
        else
          var at := LookupIndex(keyNames, columns[n - 1].name);
          if n - 1 < |record| && at <= |values| then Done(values[..at] + [record[n - 1]] + values[at..])
          else Panicked
  }

  /** The loop of `get_primary_key`; a table without a primary key panics. */
  method GetPrimaryKey(record: Record, table: Table) returns (key: Outcome<Key, ()>)
    ensures key == PrimaryKey(record, table)
  {
    if table.primaryKey.None? {
      return Panicked;
    }
    var keyNames := table.primaryKey.value;
    var values := [];
    for i := 0 to |table.columns|
      invariant Collected(table.columns, keyNames, record, i) == Done(values)
    {
      if table.columns[i].name in keyNames {
        var at := LookupIndex(keyNames, table.columns[i].name);
        if i >= |record| || at > |values| {
          CollectedStaysPanicked(table.columns, keyNames, record, i + 1, |table.columns|);
          return Panicked;
        }
        values := values[..at] + [record[i]] + values[at..];
      }
    }
    key := Done(values);
  }

  function PrimaryKey(record: Record, table: Table): Outcome<Key, ()> {
    if table.primaryKey.None? then Panicked
    else Collected(table.columns, table.primaryKey.value, record, |table.columns|)
  }

  lemma {:induction false} CollectedStaysPanicked(columns: seq<Column>, keyNames: seq<string>, record: Record, n: nat,
                                                  m: nat)
    requires n <= m <= |columns| && Collected(columns, keyNames, record, n).Panicked?
    ensures Collected(columns, keyNames, record, m).Panicked?
  {
    if n < m { CollectedStaysPanicked(columns, keyNames, record, n, m - 1); }
  }

  // ---------------------------------------------------------------- what the key should be

  /** Distinct column names, and a primary key of distinct names of columns. */
  predicate WellNamed(columns: seq<Column>, keyNames: seq<string>) {
    && Distinct(Names(columns))
    && Distinct(keyNames)
    && forall j :: 0 <= j < |keyNames| ==> keyNames[j] in Names(columns)
  }

  /** Column that holds key value `j`. */
  function KeyColumn(columns: seq<Column>, keyNames: seq<string>, j: nat): nat
    requires j < |keyNames|
  {
    Position(Names(columns), keyNames[j])
  }

  /** The values of the key columns in the order of the key. */
  function Projection(columns: seq<Column>, keyNames: seq<string>, record: Record): (key: Key)
    requires WellNamed(columns, keyNames) && |record| == |columns|
    ensures |key| == |keyNames|
    ensures forall j :: 0 <= j < |key| ==> key[j] == record[KeyColumn(columns, keyNames, j)]
  {
    seq(|keyNames|, j requires 0 <= j < |keyNames| => record[KeyColumn(columns, keyNames, j)])
  }

  /** The primary key lists its columns in the order in which the table has them. */
  predicate InSchemaOrder(columns: seq<Column>, keyNames: seq<string>) {
    forall j, k :: 0 <= j < k < |keyNames| ==> KeyColumn(columns, keyNames, j) < KeyColumn(columns, keyNames, k)
  }

  lemma ColumnIsUnique(columns: seq<Column>, keyNames: seq<string>, j: nat, n: nat)
    requires WellNamed(columns, keyNames) && j < |keyNames| && n < |columns|
    ensures KeyColumn(columns, keyNames, j) == n <==> columns[n].name == keyNames[j]
  {
    assert keyNames[j] in Names(columns);
    var p := KeyColumn(columns, keyNames, j);
    assert Names(columns)[p] == keyNames[j] && Names(columns)[n] == columns[n].name;
    if p < n {
      assert Names(columns)[p] != Names(columns)[n];
    }
  }

  /** The values of the key columns that lie among the first `n` columns, and these are the first ones
      of the key. */
  predicate KeyPrefix(columns: seq<Column>, keyNames: seq<string>, record: Record, n: nat, values: Key)
    requires |record| == |columns|
  {
    && |values| <= |keyNames|
    && (forall j :: 0 <= j < |keyNames| ==> (KeyColumn(columns, keyNames, j) < n <==> j < |values|))
    && (forall j :: 0 <= j < |values| ==>
          KeyColumn(columns, keyNames, j) < |columns| && values[j] == record[KeyColumn(columns, keyNames, j)])
  }

  /** While nothing has panicked, the values collected from `n` columns are the key values whose
      columns lie among them, and those are a prefix of the key. */
  lemma {:induction false} CollectedIsPrefix(columns: seq<Column>, keyNames: seq<string>, record: Record, n: nat)
    requires WellNamed(columns, keyNames) && n <= |columns| == |record|
    requires Collected(columns, keyNames, record, n).Done?
    ensures KeyPrefix(columns, keyNames, record, n, Collected(columns, keyNames, record, n).value)
  {
    if n > 0 {
      CollectedIsPrefix(columns, keyNames, record, n - 1);
      var before := Collected(columns, keyNames, record, n - 1).value;
      var values := Collected(columns, keyNames, record, n).value;
      if columns[n - 1].name in keyNames {
        KeyColumnCollected(columns, keyNames, record, n, before, values);
      } else {
        OtherColumnCollected(columns, keyNames, record, n, before);
      }
    }
  }

  lemma KeyColumnCollected(columns: seq<Column>, keyNames: seq<string>, record: Record, n: nat, before: Key,
                           values: Key)
    requires WellNamed(columns, keyNames) && 0 < n <= |columns| == |record|
    requires KeyPrefix(columns, keyNames, record, n - 1, before) && columns[n - 1].name in keyNames
    requires var at := LookupIndex(keyNames, columns[n - 1].name);
             at <= |before| && values == before[..at] + [record[n - 1]] + before[at..]
    ensures KeyPrefix(columns, keyNames, record, n, values)
  {
    var at := LookupIndex(keyNames, columns[n - 1].name);
    ColumnIsUnique(columns, keyNames, at, n - 1);
    assert at == |before|;
    assert values == before + [record[n - 1]];
    forall j | 0 <= j < |keyNames| ensures KeyColumn(columns, keyNames, j) == n - 1 <==> j == at {
      ColumnIsUnique(columns, keyNames, j, n - 1);
    }
  }

  lemma OtherColumnCollected(columns: seq<Column>, keyNames: seq<string>, record: Record, n: nat, values: Key)
    requires WellNamed(columns, keyNames) && 0 < n <= |columns| == |record|
    requires KeyPrefix(columns, keyNames, record, n - 1, values) && columns[n - 1].name !in keyNames
    ensures KeyPrefix(columns, keyNames, record, n, values)
  {
    forall j | 0 <= j < |keyNames| ensures KeyColumn(columns, keyNames, j) != n - 1 {
      ColumnIsUnique(columns, keyNames, j, n - 1);
      assert keyNames[j] in keyNames;
    }
  }

  /** With the key in schema order, no insertion is past the end. */
  lemma {:induction false} OrderedNeverPanics(columns: seq<Column>, keyNames: seq<string>, record: Record, n: nat)
    requires WellNamed(columns, keyNames) && n <= |columns| == |record|
    requires InSchemaOrder(columns, keyNames)
    ensures Collected(columns, keyNames, record, n).Done?
  {
    if n > 0 {
      OrderedNeverPanics(columns, keyNames, record, n - 1);
      if columns[n - 1].name in keyNames {
        CollectedIsPrefix(columns, keyNames, record, n - 1);
        var at := LookupIndex(keyNames, columns[n - 1].name);
        ColumnIsUnique(columns, keyNames, at, n - 1);
        if at > 0 { assert KeyColumn(columns, keyNames, at - 1) < KeyColumn(columns, keyNames, at); }
      }
    }
  }

  /** For a well-named table, taking the key of a record panics unless the key lists its columns
      in schema order, and then gives the projection of the record on the key. */
  lemma PrimaryKeyExactly(record: Record, table: Table)
    requires table.primaryKey.Some? && WellNamed(table.columns, table.primaryKey.value)
    requires |record| == |table.columns|
    ensures PrimaryKey(record, table) ==
            if InSchemaOrder(table.columns, table.primaryKey.value)
            then Done(Projection(table.columns, table.primaryKey.value, record))
            else Panicked
  {
    var columns, keyNames := table.columns, table.primaryKey.value;
    if Collected(columns, keyNames, record, |columns|).Done? {
      CollectedIsProjection(columns, keyNames, record, Collected(columns, keyNames, record, |columns|).value);
      forall j, k | 0 <= j < k < |keyNames|
        ensures KeyColumn(columns, keyNames, j) < KeyColumn(columns, keyNames, k)
      {
        CollectedInOrder(columns, keyNames, record, j, k);
      }
    } else {
      if InSchemaOrder(columns, keyNames) { OrderedNeverPanics(columns, keyNames, record, |columns|); }
      NeverFails(columns, keyNames, record, |columns|);
    }
  }

  lemma KeyColumnExists(columns: seq<Column>, keyNames: seq<string>, j: nat)
    requires WellNamed(columns, keyNames) && j < |keyNames|
    ensures KeyColumn(columns, keyNames, j) < |columns|
  {
    assert keyNames[j] in Names(columns);
  }

  lemma CollectedIsProjection(columns: seq<Column>, keyNames: seq<string>, record: Record, key: Key)
    requires WellNamed(columns, keyNames) && |record| == |columns|
    requires Collected(columns, keyNames, record, |columns|) == Done(key)
    ensures key == Projection(columns, keyNames, record)
  {
    CollectedIsPrefix(columns, keyNames, record, |columns|);
    if |key| < |keyNames| { KeyColumnExists(columns, keyNames, |key|); }
  }

  lemma CollectedInOrder(columns: seq<Column>, keyNames: seq<string>, record: Record, j: nat, k: nat)
    requires WellNamed(columns, keyNames) && |record| == |columns| && j < k < |keyNames|
    requires Collected(columns, keyNames, record, |columns|).Done?
    ensures KeyColumn(columns, keyNames, j) < KeyColumn(columns, keyNames, k)
  {
    KeyColumnExists(columns, keyNames, k);
    var n := KeyColumn(columns, keyNames, k);
    var before := PrefixAt(columns, keyNames, record, n);
    var after := PrefixAt(columns, keyNames, record, n + 1);
    CollectedGrows(columns, keyNames, record, n);
    PrefixInOrder(columns, keyNames, record, n, n + 1, before, after, j, k);
  }

  lemma PrefixAt(columns: seq<Column>, keyNames: seq<string>, record: Record, n: nat) returns (values: Key)
    requires WellNamed(columns, keyNames) && |record| == |columns| && n <= |columns|
    requires Collected(columns, keyNames, record, |columns|).Done?
    ensures Collected(columns, keyNames, record, n) == Done(values) && KeyPrefix(columns, keyNames, record, n, values)
  {
    NotPanickedBefore(columns, keyNames, record, n, |columns|);
    CollectedIsPrefix(columns, keyNames, record, n);
    values := Collected(columns, keyNames, record, n).value;
  }

  lemma PrefixInOrder(columns: seq<Column>, keyNames: seq<string>, record: Record, n: nat, m: nat, before: Key,
                      after: Key, j: nat, k: nat)
    requires |record| == |columns| && j < k < |keyNames| && m == n + 1 && |after| <= |before| + 1
    requires KeyPrefix(columns, keyNames, record, n, before) && KeyPrefix(columns, keyNames, record, m, after)
    requires KeyColumn(columns, keyNames, k) == n
    ensures KeyColumn(columns, keyNames, j) < n
  {
    assert k < |after|;
  }

  lemma CollectedGrows(columns: seq<Column>, keyNames: seq<string>, record: Record, n: nat)
    requires n < |columns| && Collected(columns, keyNames, record, n).Done?
    requires Collected(columns, keyNames, record, n + 1).Done?
    ensures |Collected(columns, keyNames, record, n + 1).value| <= |Collected(columns, keyNames, record, n).value| + 1
  {
  }

  lemma {:induction false} NotPanickedBefore(columns: seq<Column>, keyNames: seq<string>, record: Record, n: nat,
                                             m: nat)
    requires n <= m <= |columns| && Collected(columns, keyNames, record, m).Done?
    ensures Collected(columns, keyNames, record, n).Done?
  {
    if n < m { NotPanickedBefore(columns, keyNames, record, n, m - 1); }
  }

  lemma {:induction false} NeverFails(columns: seq<Column>, keyNames: seq<string>, record: Record, n: nat)
    requires n <= |columns|
    ensures !Collected(columns, keyNames, record, n).Failed?
  {
    if n > 0 { NeverFails(columns, keyNames, record, n - 1); }
  }
}
