/** What the leaf operations mean on page values: a leaf is a page whose records are in strict key
    order. */
module LeafSpec {
  import opened Bytes
  import opened Outcomes
  import opened DataModel
  import opened KeyOrder
  import opened RecordFormat
  import opened RoundTrip
  import opened PrimaryKeys
  import opened KeyExtraction
  import opened PageLayout
  import opened PageRuns

  const LEAF_KIND: Byte := 1
  const INVALID_KIND: Byte := 0

  // ---------------------------------------------------------------- keys of a leaf

  predicate Keyed(table: Table, rs: seq<Data>) {
    forall i :: 0 <= i < |rs| ==> PrimaryKeyOf(table, rs[i]).Done?
  }

  function Keys(table: Table, rs: seq<Data>): (keys: seq<Key>)
    requires Keyed(table, rs)
    ensures |keys| == |rs| && forall i :: 0 <= i < |rs| ==> keys[i] == PrimaryKeyOf(table, rs[i]).value
  {
    seq(|rs|, i requires 0 <= i < |rs| => PrimaryKeyOf(table, rs[i]).value)
  }

  predicate Ascending(keys: seq<Key>) {
    forall i, j :: 0 <= i < j < |keys| ==> Compare(keys[i], keys[j]) == Less
  }

  /** Every record has a key, and the keys ascend strictly. */
  predicate SortedLeaf(table: Table, rs: seq<Data>) {
    Keyed(table, rs) && Ascending(Keys(table, rs))
  }

  /** A record the leaf can take: its values have the column types, and its key is not null and
      listed in schema order, so that neither key extraction nor serialization panics. */
  predicate Insertable(table: Table, record: Record) {
    && table.primaryKey.Some? && WellNamed(table.columns, table.primaryKey.value)
    && InSchemaOrder(table.columns, table.primaryKey.value)
    && Storable(table.columns, record)
    && forall j :: 0 <= j < |table.primaryKey.value| ==>
         !Projection(table.columns, table.primaryKey.value, record)[j].Null?
  }

  /** Bytes and key of a record the leaf can take. */
  function BytesOf(table: Table, record: Record): Data
    requires Insertable(table, record)
  {
    StorableFits(table.columns, record);
    Encoded(table.columns, record)
  }

  function RecordKey(table: Table, record: Record): Key
    requires Insertable(table, record)
  {
    StoredKeyIsRecordKey(table, record);
    PrimaryKey(record, table).value
  }

  lemma KeyOfBytes(table: Table, record: Record)
    requires Insertable(table, record)
    ensures PrimaryKeyOf(table, BytesOf(table, record)) == Done(RecordKey(table, record))
  {
    StoredKeyIsRecordKey(table, record);
  }

  // ---------------------------------------------------------------- searching

  /** First index whose key is not below `key`. */
  function LowerBound(keys: seq<Key>, key: Key): (i: nat)
    ensures i <= |keys|
    ensures forall j :: 0 <= j < i ==> Compare(keys[j], key) == Less
    ensures i < |keys| ==> Compare(keys[i], key) != Less
  {
    if keys == [] then 0
    else if Compare(keys[0], key) == Less then 1 + LowerBound(keys[1..], key)
    else 0
  }

  predicate Present(keys: seq<Key>, key: Key) {
    var i := LowerBound(keys, key);
    i < |keys| && Compare(keys[i], key) == Equal
  }

  /** In ascending keys the lower bound separates the smaller keys from the greater ones, and at
      most the key there is equal. */
  lemma LowerBoundSeparates(keys: seq<Key>, key: Key)
    requires Ascending(keys)
    ensures forall j :: LowerBound(keys, key) < j < |keys| ==> Compare(keys[j], key) == Greater
    ensures Present(keys, key) <==> exists j :: 0 <= j < |keys| && Compare(keys[j], key) == Equal
    ensures !Present(keys, key) && LowerBound(keys, key) < |keys| ==>
            Compare(keys[LowerBound(keys, key)], key) == Greater
  {
    var i := LowerBound(keys, key);
    forall j | i < j < |keys| ensures Compare(keys[j], key) == Greater {
      GreaterThanGreater(keys[i], keys[j], key);
    }
    if exists j :: 0 <= j < |keys| && Compare(keys[j], key) == Equal {
      var j :| 0 <= j < |keys| && Compare(keys[j], key) == Equal;
      assert j == i;
    }
  }

  lemma GreaterThanGreater(a: Key, b: Key, key: Key)
    requires Compare(a, b) == Less && Compare(a, key) != Less
    ensures Compare(b, key) == Greater
  {
    Flip(b, key);
    Flip(a, key);
    Flip(a, b);
    if Compare(b, key) != Greater {
      Transitive(a, b, key);
    }
  }

  /** Any index that separates the keys like that is the lower bound. */
  lemma SeparatorIsLowerBound(keys: seq<Key>, key: Key, i: nat)
    requires i <= |keys|
    requires forall j :: 0 <= j < i ==> Compare(keys[j], key) == Less
    requires i < |keys| ==> Compare(keys[i], key) != Less
    ensures i == LowerBound(keys, key)
  {
  }

  // ---------------------------------------------------------------- insert and update

  function InsertKeyed(table: Table, p: Page, record: Record): Result<Page>
    requires Insertable(table, record) && Keyed(table, Records(p))
  {
    var keys, key := Keys(table, Records(p)), RecordKey(table, record);
    if Present(keys, key) then Err(DuplicateKey)
    else Insert(p, LowerBound(keys, key), BytesOf(table, record))
  }

  function UpdateKeyed(table: Table, p: Page, record: Record): Result<Page>
    requires Insertable(table, record) && Keyed(table, Records(p))
  {
    var keys, key := Keys(table, Records(p)), RecordKey(table, record);
    if !Present(keys, key) then Err(KeyNotFound)
    else Update(p, LowerBound(keys, key), BytesOf(table, record))
  }

  /** The bytes stored under a key. */
  function Lookup(table: Table, rs: seq<Data>, key: Key): Option<Data>
    requires Keyed(table, rs)
  {
    var keys := Keys(table, rs);
    if Present(keys, key) then Some(rs[LowerBound(keys, key)]) else None
  }

  lemma AscendingInsert(keys: seq<Key>, key: Key)
    requires Ascending(keys) && !Present(keys, key)
    ensures var i := LowerBound(keys, key); Ascending(keys[..i] + [key] + keys[i..])
  {
    var i := LowerBound(keys, key);
    LowerBoundSeparates(keys, key);
    forall j | i <= j < |keys| ensures Compare(key, keys[j]) == Less {
      Flip(keys[j], key);
    }
    AscendingAround(keys, key, i, keys[..i] + [key] + keys[i..]);
  }

  lemma AscendingAround(keys: seq<Key>, key: Key, i: nat, keys': seq<Key>)
    requires Ascending(keys) && i <= |keys| && keys' == keys[..i] + [key] + keys[i..]
    requires forall j :: 0 <= j < i ==> Compare(keys[j], key) == Less
    requires forall j :: i <= j < |keys| ==> Compare(key, keys[j]) == Less
    ensures Ascending(keys')
  {
    forall a, b | 0 <= a < b < |keys'| ensures Compare(keys'[a], keys'[b]) == Less {
      AroundPair(keys, key, i, keys', a, b);
    }
  }

  lemma AroundPair(keys: seq<Key>, key: Key, i: nat, keys': seq<Key>, a: nat, b: nat)
    requires Ascending(keys) && i <= |keys| && keys' == keys[..i] + [key] + keys[i..]
    requires forall j :: 0 <= j < i ==> Compare(keys[j], key) == Less
    requires forall j :: i <= j < |keys| ==> Compare(key, keys[j]) == Less
    requires a < b < |keys'|
    ensures Compare(keys'[a], keys'[b]) == Less
  {
    KeyAround(keys, i, key, keys', a);
    KeyAround(keys, i, key, keys', b);
  }

  lemma AscendingReplace(keys: seq<Key>, i: nat, key: Key)
    requires Ascending(keys) && i < |keys| && Compare(keys[i], key) == Equal
    ensures Ascending(keys[i := key])
  {
    var keys' := keys[i := key];
    Flip(keys[i], key);
    forall a, b | 0 <= a < b < |keys'| ensures Compare(keys'[a], keys'[b]) == Less {
      assert Compare(keys[a], keys[b]) == Less;
      if a == i {
        Transitive(key, keys[i], keys[b]);
      } else if b == i {
        Flip(keys[a], keys[i]);
        Transitive(keys[a], keys[i], key);
      }
    }
  }

  lemma KeysInserted(table: Table, rs: seq<Data>, i: nat, d: Data)
    requires Keyed(table, rs) && i <= |rs| && PrimaryKeyOf(table, d).Done?
    ensures Keyed(table, rs[..i] + [d] + rs[i..])
    ensures Keys(table, rs[..i] + [d] + rs[i..]) ==
            Keys(table, rs)[..i] + [PrimaryKeyOf(table, d).value] + Keys(table, rs)[i..]
  {
    var rs' := rs[..i] + [d] + rs[i..];
    forall j | 0 <= j < |rs'| ensures PrimaryKeyOf(table, rs'[j]).Done? {
      if j != i { assert rs'[j] == rs[if j < i then j else j - 1]; }
    }
  }

  /** Insertion of a record whose key is absent keeps the order; it is refused for a duplicate key
      exactly when the key is present, and otherwise only for want of contiguous space. */
  lemma InsertKeepsSorted(table: Table, p: Page, record: Record)
    requires WellFormed(p) && Insertable(table, record) && SortedLeaf(table, Records(p))
    ensures var keys, key, d := Keys(table, Records(p)), RecordKey(table, record), BytesOf(table, record);
            var i := LowerBound(keys, key);
            match InsertKeyed(table, p, record)
            case Err(e) =>
              if Present(keys, key) then e == DuplicateKey
              else e == PageFull && Contiguous(p) < |d| + SLOT_SIZE
            case Ok(q) =>
              && !Present(keys, key) && WellFormed(q)
              && Records(q) == Records(p)[..i] + [d] + Records(p)[i..]
              && SortedLeaf(table, Records(q))
              && Keys(table, Records(q)) == keys[..i] + [key] + keys[i..]
  {
    var keys, key, d := Keys(table, Records(p)), RecordKey(table, record), BytesOf(table, record);
    var i := LowerBound(keys, key);
    InsertKeeps(p, i, d);
    if InsertKeyed(table, p, record).Ok? {
      KeyOfBytes(table, record);
      KeysInserted(table, Records(p), i, d);
      AscendingInsert(keys, key);
    }
  }

  lemma UpdateKeepsSorted(table: Table, p: Page, record: Record)
    requires WellFormed(p) && Insertable(table, record) && SortedLeaf(table, Records(p))
    ensures var keys, key, d := Keys(table, Records(p)), RecordKey(table, record), BytesOf(table, record);
            var i := LowerBound(keys, key);
            match UpdateKeyed(table, p, record)
            case Err(e) =>
              if !Present(keys, key) then e == KeyNotFound
              else e == PageFull && |d| > |Records(p)[i]| && |d| > Contiguous(p)
            case Ok(q) =>
              && Present(keys, key) && WellFormed(q)
              && Records(q) == Records(p)[i := d]
              && SortedLeaf(table, Records(q))
              && Keys(table, Records(q)) == keys[i := key]
  {
    var keys, key, d := Keys(table, Records(p)), RecordKey(table, record), BytesOf(table, record);
    var i := LowerBound(keys, key);
    UpdateKeeps(p, i, d);
    if UpdateKeyed(table, p, record).Ok? {
      KeyOfBytes(table, record);
      var rs' := Records(p)[i := d];
      assert Keyed(table, rs') by {
        forall j | 0 <= j < |rs'| ensures PrimaryKeyOf(table, rs'[j]).Done? {
          if j != i { assert rs'[j] == Records(p)[j]; }
        }
      }
      assert Keys(table, rs') == keys[i := key];
      AscendingReplace(keys, i, key);
    }
  }

  lemma FoundAt(table: Table, rs: seq<Data>, key: Key, i: nat)
    requires SortedLeaf(table, rs) && i < |rs| && Compare(Keys(table, rs)[i], key) == Equal
    ensures Lookup(table, rs, key) == Some(rs[i])
  {
    EqualIsLowerBound(Keys(table, rs), key, i);
  }

  lemma EqualIsLowerBound(keys: seq<Key>, key: Key, i: nat)
    requires Ascending(keys) && i < |keys| && Compare(keys[i], key) == Equal
    ensures LowerBound(keys, key) == i && Present(keys, key)
  {
    LowerBoundSeparates(keys, key);
  }

  lemma NotFound(table: Table, rs: seq<Data>, key: Key)
    requires SortedLeaf(table, rs) && forall j :: 0 <= j < |rs| ==> Compare(Keys(table, rs)[j], key) != Equal
    ensures Lookup(table, rs, key) == None
  {
  }

  /** As a map: insertion binds the key, which was free, and changes no other binding. */
  lemma InsertBinds(table: Table, p: Page, record: Record, key: Key)
    requires WellFormed(p) && Insertable(table, record) && SortedLeaf(table, Records(p))
    requires InsertKeyed(table, p, record).Ok?
    ensures var q := InsertKeyed(table, p, record).value;
            && SortedLeaf(table, Records(q))
            && Lookup(table, Records(p), RecordKey(table, record)) == None
            && Lookup(table, Records(q), key) ==
               if Compare(RecordKey(table, record), key) == Equal then Some(BytesOf(table, record))
               else Lookup(table, Records(p), key)
  {
    InsertKeepsSorted(table, p, record);
    var newKey, d := RecordKey(table, record), BytesOf(table, record);
    LookupInserted(table, Records(p), LowerBound(Keys(table, Records(p)), newKey), newKey, d,
                   Records(InsertKeyed(table, p, record).value), key);
  }

  lemma LookupInserted(table: Table, rs: seq<Data>, i: nat, newKey: Key, d: Data, rs': seq<Data>, key: Key)
    requires SortedLeaf(table, rs) && SortedLeaf(table, rs') && i <= |rs|
    requires rs' == rs[..i] + [d] + rs[i..]
    requires Keys(table, rs') == Keys(table, rs)[..i] + [newKey] + Keys(table, rs)[i..]
    ensures Lookup(table, rs', key) == if Compare(newKey, key) == Equal then Some(d) else Lookup(table, rs, key)
  {
    var keys, keys' := Keys(table, rs), Keys(table, rs');
    LowerBoundSeparates(keys, key);
    if Compare(newKey, key) == Equal {
      assert keys'[i] == newKey;
      FoundAt(table, rs', key, i);
    } else if Present(keys, key) {
      FoundShifted(table, rs, i, newKey, d, rs', key, LowerBound(keys, key));
    } else {
      NoneEqual(keys, i, newKey, keys', key);
      NotFound(table, rs', key);
    }
  }

  lemma FoundShifted(table: Table, rs: seq<Data>, i: nat, newKey: Key, d: Data, rs': seq<Data>, key: Key, j: nat)
    requires Keyed(table, rs) && SortedLeaf(table, rs') && i <= |rs| && j < |rs|
    requires rs' == rs[..i] + [d] + rs[i..]
    requires Keys(table, rs') == Keys(table, rs)[..i] + [newKey] + Keys(table, rs)[i..]
    requires Compare(Keys(table, rs)[j], key) == Equal
    ensures Lookup(table, rs', key) == Some(rs[j])
  {
    var j' := if j < i then j else j + 1;
    ShiftedAt(Keys(table, rs), i, newKey, Keys(table, rs'), j, j');
    ShiftedAt(rs, i, d, rs', j, j');
    FoundAt(table, rs', key, j');
  }

  lemma ShiftedAt<T>(s: seq<T>, i: nat, x: T, s': seq<T>, j: nat, j': nat)
    requires i <= |s| && s' == s[..i] + [x] + s[i..] && j < |s| && j' == if j < i then j else j + 1
    ensures j' < |s'| && s'[j'] == s[j]
  {
  }

  lemma NoneEqual(keys: seq<Key>, i: nat, newKey: Key, keys': seq<Key>, key: Key)
    requires Ascending(keys) && i <= |keys| && keys' == keys[..i] + [newKey] + keys[i..]
    requires Compare(newKey, key) != Equal && !Present(keys, key)
    ensures forall j :: 0 <= j < |keys'| ==> Compare(keys'[j], key) != Equal
  {
    LowerBoundSeparates(keys, key);
    forall j | 0 <= j < |keys'| ensures Compare(keys'[j], key) != Equal {
      KeyAround(keys, i, newKey, keys', j);
    }
  }

  lemma KeyAround(keys: seq<Key>, i: nat, newKey: Key, keys': seq<Key>, j: nat)
    requires i <= |keys| && keys' == keys[..i] + [newKey] + keys[i..] && j < |keys'|
    ensures keys'[j] == if j < i then keys[j] else if j == i then newKey else keys[j - 1]
  {
  }

  /** As a map: an update rebinds the key, which was bound, and changes no other binding. */
  lemma UpdateRebinds(table: Table, p: Page, record: Record, key: Key)
    requires WellFormed(p) && Insertable(table, record) && SortedLeaf(table, Records(p))
    requires UpdateKeyed(table, p, record).Ok?
    ensures var q := UpdateKeyed(table, p, record).value;
            && SortedLeaf(table, Records(q))
            && Lookup(table, Records(p), RecordKey(table, record)).Some?
            && Lookup(table, Records(q), key) ==
               if Compare(RecordKey(table, record), key) == Equal then Some(BytesOf(table, record))
               else Lookup(table, Records(p), key)
  {
    UpdateKeepsSorted(table, p, record);
    var q, newKey := UpdateKeyed(table, p, record).value, RecordKey(table, record);
    var keys, keys' := Keys(table, Records(p)), Keys(table, Records(q));
    var i := LowerBound(keys, newKey);
    LowerBoundSeparates(keys, key);
    Flip(keys[i], newKey);
    if Compare(newKey, key) == Equal {
      FoundAt(table, Records(q), key, i);
    } else if Present(keys, key) {
      var j := LowerBound(keys, key);
      if j == i {
        Transitive(newKey, keys[i], key);
      }
      FoundAt(table, Records(q), key, j);
    } else {
      NotFound(table, Records(q), key);
    }
  }

  // ---------------------------------------------------------------- in terms of the key values

  /** The key of a record the leaf can take holds the values of its key columns, in key order. */
  lemma RecordKeyIs(table: Table, record: Record)
    requires Insertable(table, record)
    ensures RecordKey(table, record) == Projection(table.columns, table.primaryKey.value, record)
  {
    PrimaryKeyExactly(record, table);
  }

  /** Along a sorted leaf every key is less than the next, value by value. */
  lemma SortedMeansLess(table: Table, rs: seq<Data>, i: nat, j: nat)
    requires SortedLeaf(table, rs) && i < j < |rs|
    ensures KeyLess(Keys(table, rs)[i], Keys(table, rs)[j]) && !SameKey(Keys(table, rs)[i], Keys(table, rs)[j])
  {
    KeysOrdered(Keys(table, rs)[i], Keys(table, rs)[j]);
  }

  ghost predicate HasKey(keys: seq<Key>, key: Key) {
    exists j :: 0 <= j < |keys| && SameKey(keys[j], key)
  }

  lemma PresentMeansSame(keys: seq<Key>, key: Key)
    requires Ascending(keys)
    ensures Present(keys, key) <==> HasKey(keys, key)
    ensures Present(keys, key) ==> SameKey(keys[LowerBound(keys, key)], key)
  {
    LowerBoundSeparates(keys, key);
    forall j | 0 <= j < |keys| ensures Compare(keys[j], key) == Equal <==> SameKey(keys[j], key) {
      KeysOrdered(keys[j], key);
    }
  }

  /** A lookup finds the bytes of the one record whose key has the same values. */
  lemma LookupMeans(table: Table, rs: seq<Data>, key: Key, d: Data)
    requires SortedLeaf(table, rs)
    ensures Lookup(table, rs, key) == Some(d) <==>
            exists j :: 0 <= j < |rs| && SameKey(Keys(table, rs)[j], key) && rs[j] == d
  {
    var keys := Keys(table, rs);
    PresentMeansSame(keys, key);
    forall j | 0 <= j < |keys| && SameKey(keys[j], key) ensures Lookup(table, rs, key) == Some(rs[j]) {
      KeysOrdered(keys[j], key);
      FoundAt(table, rs, key, j);
    }
  }

  /** An insert reports DuplicateKey exactly when a stored key has the same values, and an update
      KeyNotFound exactly when none has. */
  lemma KeyErrorsMeanSame(table: Table, p: Page, record: Record)
    requires WellFormed(p) && Insertable(table, record) && SortedLeaf(table, Records(p))
    ensures InsertKeyed(table, p, record) == Err(DuplicateKey) <==>
            HasKey(Keys(table, Records(p)), RecordKey(table, record))
    ensures UpdateKeyed(table, p, record) == Err(KeyNotFound) <==>
            !HasKey(Keys(table, Records(p)), RecordKey(table, record))
  {
    InsertKeepsSorted(table, p, record);
    UpdateKeepsSorted(table, p, record);
    PresentMeansSame(Keys(table, Records(p)), RecordKey(table, record));
  }

  /** Where a search ends, in terms of the key values: smaller keys before, and from there on the same
      key or greater ones only. */
  lemma SearchMeans(keys: seq<Key>, key: Key, i: nat)
    requires Ascending(keys) && i == LowerBound(keys, key)
    ensures forall j :: 0 <= j < i ==> KeyLess(keys[j], key)
    ensures forall j :: i < j < |keys| ==> KeyLess(key, keys[j])
    ensures if Present(keys, key) then i < |keys| && SameKey(keys[i], key) else i < |keys| ==> KeyLess(key, keys[i])
  {
    LowerBoundSeparates(keys, key);
    forall j | 0 <= j < |keys|
      ensures Compare(keys[j], key) == Less <==> KeyLess(keys[j], key)
      ensures Compare(keys[j], key) == Equal <==> SameKey(keys[j], key)
      ensures Compare(keys[j], key) == Greater <==> KeyLess(key, keys[j])
    {
      KeysOrdered(keys[j], key);
      KeysOrdered(key, keys[j]);
      Flip(keys[j], key);
    }
  }
}
