/** A table, three records and the calls on a leaf that make a split lose one of them. */
module SplitFailure {
  import opened Bytes
  import opened Outcomes
  import opened DataModel
  import opened PrimaryKeys
  import opened RecordFormat
  import opened RoundTrip
  import opened PageLayout
  import opened PageRuns
  import opened LeafSpec
  import opened LeafSplit

  function NotesTable(): Table {
    Table([Column("id", IntType, false), Column("note", Varchar(8000), false)], Some(["id"]))
  }

  lemma {:induction false} ZerosAreUtf8(d: Data)
    requires forall k :: 0 <= k < |d| ==> d[k] == 0
    ensures ValidUtf8(d)
  {
    if d != [] { ZerosAreUtf8(d[1..]); }
  }

  /** A row with a note of `n` characters. */
  function Note(id: I32, n: nat): Record {
    ZerosAreUtf8(Zeros(n));
    [Int(id), Text(Zeros(n))]
  }

  lemma NoteKey(id: I32, n: nat)
    requires n < 8000
    ensures Insertable(NotesTable(), Note(id, n)) && RecordKey(NotesTable(), Note(id, n)) == [Int(id)]
  {
    var t, r := NotesTable(), Note(id, n);
    var columns, names := t.columns, t.primaryKey.value;
    assert Names(columns) == ["id", "note"];
    assert Names(columns)[0] == "id" && |Names(columns)[0]| != |Names(columns)[1]|;
    assert Position(Names(columns), "id") == 0;
    assert KeyColumn(columns, names, 0) == 0;
    assert StorableAt(columns[0], r[0]) && StorableAt(columns[1], r[1]);
    assert Projection(columns, names, r) == [Int(id)];
    PrimaryKeyExactly(r, t);
  }

  lemma NoteLength(id: I32, n: nat)
    requires n < 8000 && Insertable(NotesTable(), Note(id, n))
    ensures |BytesOf(NotesTable(), Note(id, n))| == 9 + n
  {
    var columns, r := NotesTable().columns, Note(id, n);
    StorableFits(columns, r);
    EncodedLength(columns, r);
    var fixed, variable := FixedFields(columns, r), VariableFields(columns, r);
    assert |fixed[0]| == 4 && fixed[1] == [] && variable[0] == [] && |variable[1]| == 4 + n;
    assert fixed == [fixed[0], fixed[1]] && variable == [variable[0], variable[1]];
    TotalThree(fixed[0], fixed[1], []);
    TotalThree(variable[0], variable[1], []);
  }

  /** An insert above all keys of a leaf with room appends. */
  lemma InsertsLast(table: Table, p: Page, record: Record, d: Data, q: Result<Page>)
    requires WellFormed(p) && Insertable(table, record) && SortedLeaf(table, Records(p)) && d == BytesOf(table, record)
    requires forall j :: 0 <= j < |Records(p)| ==> Compare(Keys(table, Records(p))[j], RecordKey(table, record)) == Less
    requires |d| + SLOT_SIZE <= Contiguous(p) && q == InsertKeyed(table, p, record)
    ensures q.Ok? && WellFormed(q.value) && Records(q.value) == Records(p) + [d] && SortedLeaf(table, Records(q.value))
    ensures Keys(table, Records(q.value)) == Keys(table, Records(p)) + [RecordKey(table, record)]
    ensures Contiguous(q.value) == Contiguous(p) - |d| - SLOT_SIZE
  {
    var keys, n := Keys(table, Records(p)), |Records(p)|;
    SeparatorIsLowerBound(keys, RecordKey(table, record), n);
    InsertKeepsSorted(table, p, record);
    InsertKeeps(p, n, d);
    assert Records(p)[..n] == Records(p) && Records(p)[n..] == [] && keys[..n] == keys && keys[n..] == [];
  }

  /** Two inserts into an empty leaf, in key order. */
  ghost predicate LeafOfTwo(table: Table, p: Page, a: Record, b: Record, p1: Page, left: Page)
    requires Insertable(table, a) && Insertable(table, b)
  {
    && Keyed(table, Records(p)) && InsertKeyed(table, p, a) == Ok(p1)
    && Keyed(table, Records(p1)) && InsertKeyed(table, p1, b) == Ok(left)
  }

  lemma TwoInserts(table: Table, p: Page, a: Record, b: Record) returns (p1: Page, left: Page)
    requires WellFormed(p) && Records(p) == [] && Insertable(table, a) && Insertable(table, b)
    requires Compare(RecordKey(table, a), RecordKey(table, b)) == Less
    requires |BytesOf(table, a)| + |BytesOf(table, b)| + 2 * SLOT_SIZE <= Contiguous(p)
    ensures LeafOfTwo(table, p, a, b, p1, left)
    ensures WellFormed(left) && Records(left) == [BytesOf(table, a), BytesOf(table, b)]
    ensures SortedLeaf(table, Records(left))
    ensures Keys(table, Records(left)) == [RecordKey(table, a), RecordKey(table, b)]
    ensures Contiguous(left) == Contiguous(p) - |BytesOf(table, a)| - |BytesOf(table, b)| - 2 * SLOT_SIZE
  {
    InsertsLast(table, p, a, BytesOf(table, a), InsertKeyed(table, p, a));
    p1 := InsertKeyed(table, p, a).value;
    InsertsLast(table, p1, b, BytesOf(table, b), InsertKeyed(table, p1, b));
    left := InsertKeyed(table, p1, b).value;
  }

  /** A record of 200 bytes between one of 8000 bytes and one of 100 bytes: it does not fit, and the
      split for it breaks. */
  lemma SplitBetween(table: Table, left: Page, d: Record, leftIndex: nat, rightIndex: nat, big: Data, small: Data)
    requires WellFormed(left) && Records(left) == [big, small] && |big| == 8000 && |small| == 100
    requires SortedLeaf(table, Records(left)) && Insertable(table, d) && |BytesOf(table, d)| == 200
    requires Compare(Keys(table, Records(left))[0], RecordKey(table, d)) == Less
    requires Compare(Keys(table, Records(left))[1], RecordKey(table, d)) == Greater && Contiguous(left) < 204
    ensures InsertKeyed(table, left, d) == Err(PageFull)
    ensures var o := SplitLeaf(table, left, Initialize(LEAF_KIND, None), d, leftIndex, rightIndex);
            o.Broken? && Records(o.left) == [] && Records(o.right) == [big]
  {
    var keys, key := Keys(table, Records(left)), RecordKey(table, d);
    SeparatorIsLowerBound(keys, key, 1);
    PointIsLowerBound(keys, key);
    UpperPartTooLong(left, Initialize(LEAF_KIND, None), big, small, BytesOf(table, d),
                     WithRecord([big, small], 1, BytesOf(table, d)), leftIndex, rightIndex, keys[0]);
  }

  lemma IdsCompare(i: I32, j: I32)
    ensures Compare([Int(i)], [Int(j)]) == if i < j then Less else if i > j then Greater else Equal
  {
    assert Rank(Int(i)) == [1, i] && Rank(Int(j)) == [1, j];
    assert CompareInts([1, i], [1, j]) == CompareInts([i], [j]);
  }

  /** Notes 1 and 3 of a fresh leaf and note 2, which does not fit. The leaf is split onto a fresh page,
      and the split fails with the left page empty and note 1 alone on the right: note 3 is lost. */
  lemma SplitLosesRecord(a: Record, b: Record, d: Record, leftIndex: nat, rightIndex: nat)
    requires a == Note(1, 7991) && b == Note(3, 91) && d == Note(2, 191)
    ensures var t := NotesTable();
            && Insertable(t, a) && Insertable(t, b) && Insertable(t, d) && |BytesOf(t, d)| > 0
            && exists p1, left ::
                 && LeafOfTwo(t, Initialize(LEAF_KIND, None), a, b, p1, left)
                 && Keyed(t, Records(left)) && InsertKeyed(t, left, d) == Err(PageFull)
                 && var o := SplitLeaf(t, left, Initialize(LEAF_KIND, None), d, leftIndex, rightIndex);
                    o.Broken? && Records(o.left) == [] && Records(o.right) == [BytesOf(t, a)]
  {
    var t := NotesTable();
    NoteKey(1, 7991);
    NoteLength(1, 7991);
    NoteKey(2, 191);
    NoteLength(2, 191);
    NoteKey(3, 91);
    NoteLength(3, 91);
    IdsCompare(1, 3);
    IdsCompare(1, 2);
    IdsCompare(3, 2);
    NotesSplit(t, a, b, d, leftIndex, rightIndex);
  }

  lemma NotesSplit(t: Table, a: Record, b: Record, d: Record, leftIndex: nat, rightIndex: nat)
    requires Insertable(t, a) && Insertable(t, b) && Insertable(t, d)
    requires |BytesOf(t, a)| == 8000 && |BytesOf(t, b)| == 100 && |BytesOf(t, d)| == 200
    requires Compare(RecordKey(t, a), RecordKey(t, b)) == Less
    requires Compare(RecordKey(t, a), RecordKey(t, d)) == Less && Compare(RecordKey(t, b), RecordKey(t, d)) == Greater
    ensures exists p1, left ::
              && LeafOfTwo(t, Initialize(LEAF_KIND, None), a, b, p1, left)
              && Keyed(t, Records(left)) && InsertKeyed(t, left, d) == Err(PageFull)
              && var o := SplitLeaf(t, left, Initialize(LEAF_KIND, None), d, leftIndex, rightIndex);
                 o.Broken? && Records(o.left) == [] && Records(o.right) == [BytesOf(t, a)]
  {
    var p1, left := TwoInserts(t, Initialize(LEAF_KIND, None), a, b);
    SplitBetween(t, left, d, leftIndex, rightIndex, BytesOf(t, a), BytesOf(t, b));
  }
}
