/** The view of one leaf page. Its methods change page buffers in place and are proved against the
    page values LeafSpec.dfy and LeafSplit.dfy compute. */
module LeafNode {
  import opened Bytes
  import opened Outcomes
  import opened DataModel
  import opened KeyOrder
  import opened PrimaryKeys
  import opened RecordFormat
  import opened KeyExtraction
  import opened Serializer
  import opened PageLayout
  import opened PageBytes
  import opened SlottedPage
  import opened LeafSpec
  import opened LeafSplit

  /** Result of a key search: the slot that holds the key, or the one to insert it at. */
  datatype Search = Found(index: nat) | Missing(index: nat)

  /** The answer of a search, in terms of the key values: a found slot has the same key, and a missing
      key goes between smaller and greater ones. */
  ghost predicate SearchIs(keys: seq<Key>, key: Key, found: Search) {
    && (found.Found? ==> found.index < |keys| && SameKey(keys[found.index], key))
    && found.index <= |keys|
    && (forall j :: 0 <= j < found.index ==> KeyLess(keys[j], key))
    && (forall j :: found.index <= j < |keys| && (found.Missing? || j > found.index) ==> KeyLess(key, keys[j]))
  }

  /** `deserialize_primary_key`. */
  method DeserializePrimaryKey(table: Table, bytes: Data) returns (key: Outcome<Key, SerializationError>)
    ensures key == PrimaryKeyOf(table, bytes)
  {
    if table.primaryKey.None? {
      return Failed(PrimaryKeyNotFound);
    }
    var keyNames := table.primaryKey.value;
    if exists j :: 0 <= j < |keyNames| && keyNames[j] !in Names(table.columns) {
      return Panicked;
    }
    key := DeserializeKey(table.columns, keyNames, bytes);
  }

  /** Once a record has not fitted, nothing more is appended. */
  lemma {:induction false} AppendStops(p: Page, rs: seq<Data>, n: nat)
    requires n <= |rs| && AppendAll(p, rs[..n]).count < n
    ensures AppendAll(p, rs) == AppendAll(p, rs[..n])
  {
    if n < |rs| {
      var last := |rs| - 1;
      assert rs[..last][..n] == rs[..n];
      AppendStops(p, rs[..last], n);
    } else {
      assert rs[..n] == rs;
    }
  }

  lemma AppendNext(p: Page, rs: seq<Data>, i: nat, q: Page)
    requires i < |rs| && AppendAll(p, rs[..i]) == Filled(q, i)
    ensures match Insert(q, |q.cells|, rs[i])
            case Ok(q') => AppendAll(p, rs[..i + 1]) == Filled(q', i + 1)
            case Err(_) => AppendAll(p, rs) == Filled(q, i)
  {
    assert rs[..i + 1][..i] == rs[..i];
    if Insert(q, |q.cells|, rs[i]).Err? { AppendStops(p, rs, i + 1); }
  }

  lemma MissingSeparates(keys: seq<Key>, key: Key)
    requires Ascending(keys) && !Present(keys, key)
    ensures forall j :: LowerBound(keys, key) <= j < |keys| ==> Compare(keys[j], key) == Greater
  {
    LowerBoundSeparates(keys, key);
  }

  /** What comparing the key with the middle one says about where the key goes. */
  /** The same by comparing keys. */
  ghost predicate Separated(keys: seq<Key>, key: Key, found: Search) {
    if found.Found? then found.index < |keys| && Compare(keys[found.index], key) == Equal
    else
      && found.index <= |keys|
      && (forall j :: 0 <= j < found.index ==> Compare(keys[j], key) == Less)
      && (forall j :: found.index <= j < |keys| ==> Compare(keys[j], key) == Greater)
  }

  lemma AnswerIs(keys: seq<Key>, key: Key, found: Search)
    requires Ascending(keys)
    requires found == if Present(keys, key) then Found(LowerBound(keys, key)) else Missing(LowerBound(keys, key))
    ensures Separated(keys, key, found) && SearchIs(keys, key, found)
  {
    if !Present(keys, key) { MissingSeparates(keys, key); }
    SearchMeans(keys, key, found.index);
  }

  lemma Halves(keys: seq<Key>, key: Key, mid: nat)
    requires Ascending(keys) && mid < |keys|
    ensures match Compare(key, keys[mid])
            case Equal => LowerBound(keys, key) == mid && Present(keys, key)
            case Greater => LowerBound(keys, key) > mid
            case Less => LowerBound(keys, key) <= mid && (Present(keys, key) ==> LowerBound(keys, key) < mid)
  {
    Flip(keys[mid], key);
    LowerBoundSeparates(keys, key);
  }

  /** The first `n` elements with `x` put in at `i`. */
  ghost function Placed<T>(s: seq<T>, i: nat, x: T, n: nat): seq<T>
    requires i <= n <= |s|
  {
    s[..i] + [x] + s[i..n]
  }

  lemma PlacedNext<T>(s: seq<T>, i: nat, x: T, n: nat, r: seq<T>)
    requires i <= n < |s| && r == Placed(s, i, x, n)
    ensures r + [s[n]] == Placed(s, i, x, n + 1)
  {
    assert s[i..n] + [s[n]] == s[i..n + 1];
  }

  lemma PlacedNow<T>(s: seq<T>, x: T, n: nat, r: seq<T>, r': seq<T>)
    requires n < |s| && r == s[..n] && r' == r + [x] + [s[n]]
    ensures r' == Placed(s, n, x, n + 1)
  {
  }

  /** Keys, records and size gathered from the first `n` records of a leaf, the new record included
      once it has been placed. */
  ghost predicate Gathered(rs: seq<Data>, ks: seq<Key>, key: Key, bytes: Data, n: nat, inserted: bool,
                           keys: seq<Key>, records: seq<Data>, total: nat)
    requires |rs| == |ks|
  {
    var i := InsertPoint(ks, key);
    && n <= |rs|
    && if inserted then
         && i < n && total == Total(rs[..n]) + |bytes|
         && keys == Placed(ks, i, key, n) && records == Placed(rs, i, bytes, n)
       else n <= i && keys == ks[..n] && records == rs[..n] && total == Total(rs[..n])
  }

  lemma GatherFirst(rs: seq<Data>, ks: seq<Key>, key: Key, bytes: Data)
    requires |rs| == |ks|
    ensures Gathered(rs, ks, key, bytes, 0, false, [], [], 0)
  {
  }

  lemma GatherOne(rs: seq<Data>, ks: seq<Key>, key: Key, bytes: Data, n: nat, inserted: bool, keys: seq<Key>,
                  records: seq<Data>, total: nat, keys': seq<Key>, records': seq<Data>)
    requires |rs| == |ks| && n < |rs| && Gathered(rs, ks, key, bytes, n, inserted, keys, records, total)
    requires inserted || Compare(key, ks[n]) != Less
    requires keys' == keys + [ks[n]] && records' == records + [rs[n]]
    ensures Gathered(rs, ks, key, bytes, n + 1, inserted, keys', records', total + |rs[n]|)
  {
    TotalPrefix(rs, n);
    if inserted {
      PlacedNext(ks, InsertPoint(ks, key), key, n, keys);
      PlacedNext(rs, InsertPoint(ks, key), bytes, n, records);
    }
  }

  lemma GatherNew(rs: seq<Data>, ks: seq<Key>, key: Key, bytes: Data, n: nat, keys: seq<Key>, records: seq<Data>,
                  total: nat, keys': seq<Key>, records': seq<Data>)
    requires |rs| == |ks| && n < |rs| && Gathered(rs, ks, key, bytes, n, false, keys, records, total)
    requires Compare(key, ks[n]) == Less
    requires keys' == keys + [key] + [ks[n]] && records' == records + [bytes] + [rs[n]]
    ensures Gathered(rs, ks, key, bytes, n + 1, true, keys', records', total + |rs[n]| + |bytes|)
  {
    TotalPrefix(rs, n);
    assert InsertPoint(ks, key) == n;
    PlacedNow(ks, key, n, keys, keys');
    PlacedNow(rs, bytes, n, records, records');
  }

  lemma GatherLast(rs: seq<Data>, ks: seq<Key>, key: Key, bytes: Data, inserted: bool,
                   keys: seq<Key>, records: seq<Data>, total: nat)
    requires |rs| == |ks| && Gathered(rs, ks, key, bytes, |rs|, inserted, keys, records, total)
    ensures var i := InsertPoint(ks, key);
            && (if inserted then keys else keys + [key]) == ks[..i] + [key] + ks[i..]
            && (if inserted then records else records + [bytes]) == WithRecord(rs, i, bytes)
            && total == SplitTotal(rs, i, bytes)
  {
    assert rs[..|rs|] == rs;
    if inserted {
      PlacedAll(ks, InsertPoint(ks, key), key);
      PlacedAll(rs, InsertPoint(ks, key), bytes);
    } else {
      PlacedLast(ks, key);
      PlacedLast(rs, bytes);
    }
  }

  lemma PlacedAll<T>(s: seq<T>, i: nat, x: T)
    requires i <= |s|
    ensures Placed(s, i, x, |s|) == s[..i] + [x] + s[i..]
  {
  }

  lemma PlacedLast<T>(s: seq<T>, x: T)
    ensures s[..|s|] + [x] == s[..|s|] + [x] + s[|s|..]
  {
  }

  lemma SplitLeafIs(table: Table, left: Page, right: Page, record: Record, leftIndex: nat, rightIndex: nat,
                    keys: seq<Key>, records: seq<Data>, split: nat)
    requires Insertable(table, record) && Keyed(table, Records(left)) && |BytesOf(table, record)| > 0
    requires right.cells == []
    requires var rs, ks := Records(left), Keys(table, Records(left));
             var i := InsertPoint(ks, RecordKey(table, record));
             && keys == ks[..i] + [RecordKey(table, record)] + ks[i..]
             && records == WithRecord(rs, i, BytesOf(table, record))
             && split == SplitIndex(records, SplitTotal(rs, i, BytesOf(table, record)))
    ensures split < |keys| && split < |records|
    ensures SplitLeaf(table, left, right, record, leftIndex, rightIndex) ==
            SplitPages(left, right, records, split, leftIndex, rightIndex, keys[split])
  {
    SplitIndexExists(Records(left), InsertPoint(Keys(table, Records(left)), RecordKey(table, record)),
        BytesOf(table, record));
  }

  class LeafNodeView {
    const pageIndex: nat
    const view: SlottedPageView

    constructor (pageIndex: nat, view: SlottedPageView)
      ensures this.pageIndex == pageIndex && this.view == view
    {
      this.pageIndex := pageIndex;
      this.view := view;
    }

    ghost predicate Valid()
      reads view.buffer
    {
      view.Valid() && pageIndex < INVALID_INDEX
    }

    ghost function State(): Page
      requires Valid()
      reads view.buffer
    {
      view.State()
    }

    method Append(record: Data) returns (result: Result<nat>)
      requires Valid()
      modifies view.buffer
      ensures Valid()
      ensures match Insert(old(State()), |old(State()).cells|, record)
              case Ok(q) => result.Ok? && State() == q
              case Err(e) => result == Err(e) && State() == old(State())
    {
      var count := view.GetItemCount();
      result := view.TryInsertRecord(count, record);
    }

    /** Appends records in order until one does not fit. */
    method AppendEach(records: seq<Data>) returns (result: Result<()>)
      requires Valid()
      modifies view.buffer
      ensures Valid()
      ensures var f := AppendAll(old(State()), records);
              && State() == f.page
              && result == if f.count == |records| then Ok(()) else Err(PageFull)
    {
      ghost var p := State();
      assert records[..|records|] == records;
      for i := 0 to |records|
        invariant Valid() && AppendAll(p, records[..i]) == Filled(State(), i)
      {
        AppendNext(p, records, i, State());
        var appended := Append(records[i]);
        if appended.Err? {
          return Err(appended.error);
        }
      }
      result := Ok(());
    }

    method GetNextLeafIndex() returns (link: Option<nat>)
      requires Valid()
      ensures link == LinkOf(State().next)
    {
      var raw := view.GetU32(NEXT_OFFSET);
      link := if raw == INVALID_INDEX then None else Some(raw);
    }

    method GetPrevLeafIndex() returns (link: Option<nat>)
      requires Valid()
      ensures link == LinkOf(State().prev)
    {
      var raw := view.GetU32(PREV_OFFSET);
      link := if raw == INVALID_INDEX then None else Some(raw);
    }

    /** Binary search: finds the slot of the key if it is there, its insertion point otherwise. */
    method FindKey(key: Key, table: Table) returns (found: Search)
      requires Valid() && SortedLeaf(table, Records(State()))
      ensures var keys := Keys(table, Records(State()));
              found == if Present(keys, key) then Found(LowerBound(keys, key)) else Missing(LowerBound(keys, key))
      ensures Separated(Keys(table, Records(State())), key, found)
      ensures SearchIs(Keys(table, Records(State())), key, found)
    {
      ghost var keys := Keys(table, Records(State()));
      var count := view.GetItemCount();
      var low, high := 0, count;
      while low < high
        invariant 0 <= low <= LowerBound(keys, key) <= high <= count
        invariant Present(keys, key) ==> LowerBound(keys, key) < high
      {
        var mid := low + (high - low) / 2;
        var midKey := KeyAt(table, mid);
        Halves(keys, key, mid);
        if Compare(key, midKey) == Equal {
          AnswerIs(keys, key, Found(mid));
          return Found(mid);
        } else if Compare(key, midKey) == Greater {
          low := mid + 1;
        } else {
          high := mid;
        }
      }
      found := Missing(low);
      AnswerIs(keys, key, found);
    }

    /** The key of the record in slot `index`. */
    method KeyAt(table: Table, index: nat) returns (key: Key)
      requires Valid() && Keyed(table, Records(State())) && index < |Records(State())|
      ensures key == Keys(table, Records(State()))[index]
    {
      var record := view.GetRecord(index);
      var outcome := DeserializePrimaryKey(table, record.value);
      key := outcome.value;
    }

    method InsertRecord(record: Record, table: Table) returns (result: Result<nat>)
      requires Valid() && Insertable(table, record) && SortedLeaf(table, Records(State()))
      modifies view.buffer
      ensures Valid()
      ensures match InsertKeyed(table, old(State()), record)
              case Ok(q) => result == Ok(LowerBound(Keys(table, Records(old(State()))), RecordKey(table, record)))
                  && State() == q
              case Err(e) => result == Err(e) && view.buffer[..] == old(view.buffer[..])
    {
      KeyOfBytes(table, record);
      StoredKeyIsRecordKey(table, record);
      var key := GetPrimaryKey(record, table);
      var slot := FindKey(key.value, table);
      if slot.Found? {
        return Err(DuplicateKey);
      }
      var bytes := Serialize(table.columns, record);
      result := view.TryInsertRecord(slot.index, bytes.value);
    }

    method UpdateRecord(record: Record, table: Table) returns (result: Result<nat>)
      requires Valid() && Insertable(table, record) && SortedLeaf(table, Records(State()))
      modifies view.buffer
      ensures Valid()
      ensures match UpdateKeyed(table, old(State()), record)
              case Ok(q) => result == Ok(LowerBound(Keys(table, Records(old(State()))), RecordKey(table, record)))
                  && State() == q
              case Err(e) => result == Err(e) && view.buffer[..] == old(view.buffer[..])
    {
      StoredKeyIsRecordKey(table, record);
      var key := GetPrimaryKey(record, table);
      var slot := FindKey(key.value, table);
      if slot.Missing? {
        return Err(KeyNotFound);
      }
      var bytes := Serialize(table.columns, record);
      result := view.TryUpdateRecord(slot.index, bytes.value);
    }

    /** The running size of the split search. */
    static method FindSplitIndexBySize(records: seq<Data>, total: nat) returns (index: nat)
      ensures index == SplitIndex(records, total)
      ensures index <= |records| && Total(records[..index]) <= total / 2
      ensures index < |records| ==> Total(records[..index + 1]) > total / 2
    {
      var size := 0;
      index := 0;
      while index < |records|
        invariant index <= |records| && size == Total(records[..index]) <= total / 2
        invariant SplitIndex(records, total) == SplitIndexFrom(records, total, index)
      {
        TotalPrefix(records, index);
        size := size + |records[index]|;
        if size > total / 2 {
          return;
        }
        index := index + 1;
      }
    }

    /** Keys and records of this leaf with the new ones at their place, and the total size the split
        is balanced on. */
    method SortedWith(table: Table, key: Key, bytes: Data) returns (keys: seq<Key>, records: seq<Data>, total: nat)
      requires Valid() && Keyed(table, Records(State()))
      ensures var rs, ks := Records(State()), Keys(table, Records(State()));
              var i := InsertPoint(ks, key);
              keys == ks[..i] + [key] + ks[i..] && records == WithRecord(rs, i, bytes)
                  && total == SplitTotal(rs, i, bytes)
    {
      var inserted;
      inserted, keys, records, total := GatherAll(table, key, bytes);
      GatherLast(Records(State()), Keys(table, Records(State())), key, bytes, inserted, keys, records, total);
      if !inserted {
        keys, records := keys + [key], records + [bytes];
      }
    }

    method GatherAll(table: Table, key: Key, bytes: Data)
      returns (inserted: bool, keys: seq<Key>, records: seq<Data>, total: nat)
      requires Valid() && Keyed(table, Records(State()))
      ensures Gathered(Records(State()), Keys(table, Records(State())), key, bytes, |Records(State())|,
                       inserted, keys, records, total)
    {
      ghost var rs, ks := Records(State()), Keys(table, Records(State()));
      inserted, keys, records, total := false, [], [], 0;
      GatherFirst(rs, ks, key, bytes);
      var count := view.GetItemCount();
      for n := 0 to count
        invariant Gathered(rs, ks, key, bytes, n, inserted, keys, records, total)
      {
        inserted, keys, records, total := GatherNext(table, key, bytes, n, inserted, keys, records, total);
      }
    }

    method GatherNext(table: Table, key: Key, bytes: Data, n: nat, wasInserted: bool, keys0: seq<Key>,
                      records0: seq<Data>, total0: nat)
      returns (inserted: bool, keys: seq<Key>, records: seq<Data>, total: nat)
      requires Valid() && Keyed(table, Records(State())) && n < |Records(State())|
      requires Gathered(Records(State()), Keys(table, Records(State())), key, bytes, n,
                        wasInserted, keys0, records0, total0)
      ensures Gathered(Records(State()), Keys(table, Records(State())), key, bytes, n + 1,
                       inserted, keys, records, total)
    {
      var record := view.GetRecord(n);
      var current := KeyAt(table, n);
      ghost var rs, ks := Records(State()), Keys(table, Records(State()));
      inserted, keys, records, total :=
        GatherStep(rs, ks, key, bytes, n, record.value, current, wasInserted, keys0, records0, total0);
    }

    /** Adds the next record of the leaf, the new one before it when that has the smaller key. */
    static method GatherStep(ghost rs: seq<Data>, ghost ks: seq<Key>, key: Key, bytes: Data, ghost n: nat, record: Data,
                             current: Key, wasInserted: bool, keys0: seq<Key>, records0: seq<Data>, total0: nat)
      returns (inserted: bool, keys: seq<Key>, records: seq<Data>, total: nat)
      requires |rs| == |ks| && n < |rs| && record == rs[n] && current == ks[n]
      requires Gathered(rs, ks, key, bytes, n, wasInserted, keys0, records0, total0)
      ensures Gathered(rs, ks, key, bytes, n + 1, inserted, keys, records, total)
    {
      total := total0 + |record|;
      if !wasInserted && Compare(key, current) == Less {
        inserted, total := true, total + |bytes|;
        keys, records := keys0 + [key] + [current], records0 + [bytes] + [record];
        GatherNew(rs, ks, key, bytes, n, keys0, records0, total0, keys, records);
      } else {
        inserted, keys, records := wasInserted, keys0 + [current], records0 + [record];
        GatherOne(rs, ks, key, bytes, n, inserted, keys0, records0, total0, keys, records);
      }
    }

    /** Splits this leaf around a new record, its upper part going to an empty right sibling. When
        the upper part does not fit there, this leaf has already been rewritten. */
    method SplitAndInsert(record: Record, right: LeafNodeView, origRight: Option<LeafNodeView>, table: Table)
      returns (result: Result<Key>)
      requires Valid() && right.Valid() && view.buffer != right.view.buffer
      requires origRight.Some? ==>
               origRight.value.Valid() && origRight.value.view.buffer !in {view.buffer, right.view.buffer}
      requires Insertable(table, record) && Keyed(table, Records(State())) && |BytesOf(table, record)| > 0
      modifies view.buffer, right.view.buffer, if origRight.Some? then {origRight.value.view.buffer} else {}
      ensures Valid() && right.Valid() && (origRight.Some? ==> origRight.value.Valid())
      ensures match SplitLeaf(table, old(State()), old(right.State()), record, pageIndex, right.pageIndex)
              case Refused(e) =>
                && result == Err(e) && view.buffer[..] == old(view.buffer[..])
                && right.view.buffer[..] == old(right.view.buffer[..])
                && (origRight.Some? ==> origRight.value.State() == old(origRight.value.State()))
              case Broken(l, r) =>
                && result == Err(PageFull) && State() == l && right.State() == r
                && (origRight.Some? ==> origRight.value.State() == old(origRight.value.State()))
              case Split(l, r, separator) =>
                && result == Ok(separator) && State() == l && right.State() == r
                && (origRight.Some? ==>
                   origRight.value.State() == old(origRight.value.State()).(prev := right.pageIndex))
    {
      var rightCount := right.view.GetItemCount();
      if rightCount != 0 {
        return Err(NewRightSiblingNotEmpty);
      }
      ghost var p, q := State(), right.State();
      StoredKeyIsRecordKey(table, record);
      var bytes := Serialize(table.columns, record);
      var key := GetPrimaryKey(record, table);
      var keys, records, total := SortedWith(table, key.value, bytes.value);
      var split := FindSplitIndexBySize(records, total);
      SplitLeafIs(table, p, q, record, pageIndex, right.pageIndex, keys, records, split);
      var separator := keys[split];
      var moved := MoveRecords(right, records, split, separator);
      if moved.Err? {
        return Err(moved.error);
      }
      if origRight.Some? {
        origRight.value.view.SetPrev(Some(right.pageIndex));
      }
      result := Ok(separator);
    }

    /** Rewrites this leaf with the records before `split` and the right one with the others. */
    method MoveRecords(right: LeafNodeView, records: seq<Data>, split: nat, ghost separator: Key)
      returns (result: Result<()>)
      requires Valid() && right.Valid() && view.buffer != right.view.buffer && split <= |records|
      modifies view.buffer, right.view.buffer
      ensures Valid() && right.Valid()
      ensures match SplitPages(old(State()), old(right.State()), records, split, pageIndex, right.pageIndex, separator)
              case Refused(_) => false
              case Broken(l, r) => result == Err(PageFull) && State() == l && right.State() == r
              case Split(l, r, sep) => result == Ok(()) && State() == l && right.State() == r && sep == separator
    {
      var raw := view.GetU64(PARENT_OFFSET);
      var parent := if raw == U64_LIMIT - 1 then None else Some(raw);
      assert parent == ReadParent(State());
      var next := GetNextLeafIndex();
      view.Initialize(LEAF_KIND, parent);
      var left := AppendEach(records[..split]);
      if left.Err? {
        return Err(left.error);
      }
      var rest := right.AppendEach(records[split..]);
      if rest.Err? {
        return Err(rest.error);
      }
      view.SetNext(Some(right.pageIndex));
      right.view.SetNext(next);
      right.view.SetPrev(Some(pageIndex));
      result := Ok(());
    }

    /** Appends the records of another leaf one by one. */
    method AppendFrom(right: LeafNodeView) returns (result: Result<()>)
      requires Valid() && right.Valid() && view.buffer != right.view.buffer
      modifies view.buffer
      ensures Valid()
      ensures var f := AppendAll(old(State()), Records(right.State()));
              && State() == f.page
              && result == if f.count == |Records(right.State())| then Ok(()) else Err(InsertRecordFailed)
    {
      ghost var p := State();
      ghost var rs := Records(right.State());
      var count := right.view.GetItemCount();
      assert rs[..count] == rs;
      for i := 0 to count
        invariant Valid() && AppendAll(p, rs[..i]) == Filled(State(), i)
      {
        var record := right.view.GetRecord(i);
        if record.None? {
          return Err(InvalidSlotIndex);
        }
        AppendNext(p, rs, i, State());
        var appended := Append(record.value);
        if appended.Err? {
          return Err(InsertRecordFailed);
        }
      }
      result := Ok(());
    }

    /** Appends the right sibling's records to this leaf and empties the sibling, or changes
        nothing when they do not fit. */
    method Merge(right: LeafNodeView, rightNext: Option<LeafNodeView>) returns (result: Result<()>)
      requires Valid() && right.Valid() && view.buffer != right.view.buffer
      requires rightNext.Some? ==>
               rightNext.value.Valid() && rightNext.value.view.buffer !in {view.buffer, right.view.buffer}
      modifies view.buffer, right.view.buffer, if rightNext.Some? then {rightNext.value.view.buffer} else {}
      ensures Valid() && right.Valid() && (rightNext.Some? ==> rightNext.value.Valid())
      ensures match MergePages(old(State()), old(right.State()))
              case Torn(_) => false
              case Unchanged(e) =>
                && result == Err(e) && view.buffer[..] == old(view.buffer[..])
                && right.view.buffer[..] == old(right.view.buffer[..])
                && (rightNext.Some? ==> rightNext.value.State() == old(rightNext.value.State()))
              case Merged(l, r) =>
                && result == Ok(()) && State() == l && right.State() == r
                && (rightNext.Some? ==> rightNext.value.State() == old(rightNext.value.State()).(prev := pageIndex))
    {
      ghost var p, q := State(), right.State();
      MergeExactly(p, q);
      var rightFree := right.view.GetFreeSpace();
      var used := PAGE_SIZE - rightFree - HEADER_SIZE;
      var free := view.GetFreeSpaceContiguous();
      if used > free {
        return Err(InsufficientSpaceForMerge);
      }
      var appended := AppendFrom(right);
      if appended.Err? {
        return appended;
      }
      var next := right.GetNextLeafIndex();
      view.SetNext(next);
      if rightNext.Some? {
        rightNext.value.view.SetPrev(Some(pageIndex));
      }
      right.view.Initialize(INVALID_KIND, None);
      result := Ok(());
    }
  }
}
