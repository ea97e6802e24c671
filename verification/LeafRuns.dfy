/** Runs of inserts, updates, splits and merges over a chain of leaves: a sorted map. */
module LeafRuns {
  import opened Bytes
  import opened Outcomes
  import opened DataModel
  import opened RecordFormat
  import opened KeyExtraction
  import opened PageLayout
  import opened LeafSpec
  import opened LeafSplit
  import opened LeafChain

  /** What every step keeps: the next links form one chain, and along it the keys ascend strictly. */
  predicate Sound(table: Table, c: Chain) {
    Linked(c) && SortedLeaf(table, Content(c)) && AllNonempty(Content(c))
  }

  // ---------------------------------------------------------------- rewriting one leaf

  function AfterWrite(c: Chain, k: nat, q: Page): Chain
    requires k < |c.order|
  {
    c.(pages := c.pages[c.order[k] := q])
  }

  lemma WriteLinks(c: Chain, k: nat, q: Page, c': Chain)
    requires Linked(c) && k < |c.order| && WellFormed(q) && q.next == c.pages[c.order[k]].next
    requires c' == AfterWrite(c, k, q)
    ensures Linked(c') && Leaves(c') == Leaves(c)[k := Records(q)]
  {
    assert LinkedAt(c, k);
    forall j | 0 <= j < |c.order| ensures c.order[j] in c'.pages && LinkedAt(c', j) {
      assert LinkedAt(c, j);
    }
    forall j | 0 <= j < |c.order| ensures Leaves(c')[j] == Leaves(c)[k := Records(q)][j] {}
  }

  lemma WrittenContent(lists: seq<seq<Data>>, k: nat, rs: seq<Data>)
    requires k < |lists|
    ensures Concat(lists[k := rs]) == Concat(lists[..k]) + rs + Concat(lists[k + 1..])
  {
    var lists' := lists[k := rs];
    ContentAround(lists', k);
    assert lists'[..k] == lists[..k] && lists'[k + 1..] == lists[k + 1..];
  }

  lemma ReplacedInMiddle(a: seq<Data>, rs: seq<Data>, b: seq<Data>, at: nat, d: Data)
    requires |a| <= at < |a| + |rs|
    ensures a + rs[at - |a| := d] + b == (a + rs + b)[at := d]
  {
  }

  // ---------------------------------------------------------------- routing

  /** The key is routed to leaf `k`: it is above every key before that leaf and below every key after
      it. Whether the leaf has the key itself is left open. */
  predicate Routed(table: Table, c: Chain, k: nat, key: Key)
    requires HasPages(c) && Keyed(table, Content(c))
  {
    && k < |c.order|
    && RoutedBetween(Keys(table, Content(c)), Start(c, k), Start(c, k) + |Leaves(c)[k]|, key)
  }

  predicate RoutedBetween(keys: seq<Key>, lo: nat, hi: nat, key: Key) {
    && (forall j :: 0 <= j < lo && j < |keys| ==> Compare(keys[j], key) == Less)
    && (forall j :: hi <= j < |keys| ==> Compare(keys[j], key) == Greater)
  }

  lemma RoutedBounds(keys: seq<Key>, lo: nat, hi: nat, key: Key)
    requires RoutedBetween(keys, lo, hi, key) && lo <= hi <= |keys|
    ensures lo <= LowerBound(keys, key) <= hi
    ensures Present(keys, key) ==> LowerBound(keys, key) < hi
  {
    var i := LowerBound(keys, key);
    if i < |keys| { RoutedAt(keys, lo, hi, key, i); }
    if hi < |keys| { RoutedAt(keys, lo, hi, key, hi); }
  }

  lemma RoutedAt(keys: seq<Key>, lo: nat, hi: nat, key: Key, j: nat)
    requires RoutedBetween(keys, lo, hi, key) && j < |keys|
    ensures j < lo ==> Compare(keys[j], key) == Less
    ensures hi <= j ==> Compare(keys[j], key) == Greater
  {
  }

  lemma LeafInContent(c: Chain, k: nat)
    requires HasPages(c) && k < |c.order|
    ensures Start(c, k) + |Leaves(c)[k]| <= |Content(c)|
    ensures Content(c)[Start(c, k)..Start(c, k) + |Leaves(c)[k]|] == Leaves(c)[k]
  {
    ContentAround(Leaves(c), k);
    MiddleSlice(Concat(Leaves(c)[..k]), Leaves(c)[k], Concat(Leaves(c)[k + 1..]), Content(c));
  }

  /** Every leaf of a sound chain is sorted. */
  lemma LeafIsSorted(table: Table, c: Chain, k: nat)
    requires Sound(table, c) && k < |c.order|
    ensures SortedLeaf(table, Records(c.pages[c.order[k]]))
  {
    LeafInContent(c, k);
    SortedSlice(table, Content(c), Start(c, k), Start(c, k) + |Leaves(c)[k]|);
  }

  /** Searching the leaf a key is routed to answers for the whole chain: the leaf has the key exactly
      when the chain has it, at the same place, and bound to the same bytes. */
  lemma LeafSearch(table: Table, c: Chain, k: nat, key: Key, rs: seq<Data>, at: nat)
    requires Sound(table, c) && Routed(table, c, k, key)
    requires rs == Records(c.pages[c.order[k]]) && at == LowerBound(Keys(table, Content(c)), key)
    ensures BelongsIn(table, c, k, key)
    ensures SortedLeaf(table, rs) && LowerBound(Keys(table, rs), key) == at - Start(c, k)
    ensures Present(Keys(table, rs), key) <==> Present(Keys(table, Content(c)), key)
    ensures Lookup(table, rs, key) == Lookup(table, Content(c), key)
  {
    LeafInContent(c, k);
    SearchInPart(table, Content(c), Start(c, k), Start(c, k) + |rs|, rs, key, at, at - Start(c, k));
  }

  lemma SearchInPart(table: Table, all: seq<Data>, lo: nat, hi: nat, rs: seq<Data>, key: Key, at: nat, i: int)
    requires SortedLeaf(table, all) && lo <= hi <= |all| && all[lo..hi] == rs
    requires RoutedBetween(Keys(table, all), lo, hi, key)
    requires at == LowerBound(Keys(table, all), key) && i == at - lo
    ensures lo <= at <= hi && SortedLeaf(table, rs) && LowerBound(Keys(table, rs), key) == i
    ensures Present(Keys(table, rs), key) <==> Present(Keys(table, all), key)
    ensures Lookup(table, rs, key) == Lookup(table, all, key)
  {
    RoutedBounds(Keys(table, all), lo, hi, key);
    SliceSearch(table, all, lo, hi, rs, key, at, i);
    if i < |rs| { SliceAt(all, lo, hi, rs, i, at); }
  }

  lemma InsertedLeaf(table: Table, c: Chain, k: nat, record: Record, q: Page, at: nat, i: int)
    requires Sound(table, c) && Insertable(table, record) && BelongsIn(table, c, k, RecordKey(table, record))
    requires Keyed(table, Leaves(c)[k]) && InsertKeyed(table, c.pages[c.order[k]], record) == Ok(q)
    requires at == LowerBound(Keys(table, Content(c)), RecordKey(table, record)) && i == at - Start(c, k)
    ensures WellFormed(q) && q.next == c.pages[c.order[k]].next && 0 <= i <= |Leaves(c)[k]|
    ensures Records(q) == WithRecord(Leaves(c)[k], i, BytesOf(table, record))
  {
    assert LinkedAt(c, k);
    LeafOfContent(table, c, k, RecordKey(table, record), Leaves(c)[k], i);
    InsertedRecords(table, c.pages[c.order[k]], record, q, i);
  }

  lemma WriteInserts(c: Chain, k: nat, q: Page, c': Chain, at: nat, i: nat, d: Data)
    requires Linked(c) && k < |c.order| && WellFormed(q) && q.next == c.pages[c.order[k]].next
    requires c' == AfterWrite(c, k, q)
    requires i == at - Start(c, k) && i <= |Leaves(c)[k]| && Records(q) == WithRecord(Leaves(c)[k], i, d)
    ensures Linked(c') && c'.order == c.order
    ensures at <= |Content(c)| && Content(c') == WithRecord(Content(c), at, d)
  {
    WriteLinks(c, k, q, c');
    InsertedContent(Leaves(c), k, Records(q), at, d);
  }

  lemma InsertKeepsChain(table: Table, c: Chain, k: nat, record: Record, q: Page, c': Chain, at: nat, i: int)
    requires Sound(table, c) && Insertable(table, record) && BelongsIn(table, c, k, RecordKey(table, record))
    requires Keyed(table, Leaves(c)[k]) && InsertKeyed(table, c.pages[c.order[k]], record) == Ok(q)
    requires c' == AfterWrite(c, k, q) && at == LowerBound(Keys(table, Content(c)), RecordKey(table, record))
    requires i == at - Start(c, k)
    ensures Linked(c') && c'.order == c.order
    ensures at <= |Content(c)| && Content(c') == WithRecord(Content(c), at, BytesOf(table, record))
  {
    InsertedLeaf(table, c, k, record, q, at, i);
    WriteInserts(c, k, q, c', at, i, BytesOf(table, record));
  }

  lemma InsertedRecords(table: Table, p: Page, record: Record, q: Page, at: nat)
    requires WellFormed(p) && Insertable(table, record) && SortedLeaf(table, Records(p))
    requires InsertKeyed(table, p, record) == Ok(q)
    requires at == LowerBound(Keys(table, Records(p)), RecordKey(table, record))
    ensures WellFormed(q) && q.next == p.next && at <= |Records(p)|
    ensures Records(q) == WithRecord(Records(p), at, BytesOf(table, record))
  {
    InsertKeepsSorted(table, p, record);
  }

  lemma InsertedContent(lists: seq<seq<Data>>, k: nat, rs: seq<Data>, at: nat, d: Data)
    requires k < |lists| && |Concat(lists[..k])| <= at <= |Concat(lists[..k])| + |lists[k]|
    requires rs == WithRecord(lists[k], at - |Concat(lists[..k])|, d)
    ensures at <= |Concat(lists)|
    ensures Concat(lists[k := rs]) == WithRecord(Concat(lists), at, d)
  {
    ContentAround(lists, k);
    WrittenContent(lists, k, rs);
    InsertedInMiddle(Concat(lists[..k]), lists[k], Concat(lists[k + 1..]), at, d);
  }

  lemma UpdatedLeaf(table: Table, c: Chain, k: nat, record: Record, q: Page, at: nat, i: int)
    requires Sound(table, c) && Insertable(table, record) && BelongsIn(table, c, k, RecordKey(table, record))
    requires Keyed(table, Leaves(c)[k]) && UpdateKeyed(table, c.pages[c.order[k]], record) == Ok(q)
    requires at == LowerBound(Keys(table, Content(c)), RecordKey(table, record)) && i == at - Start(c, k)
    ensures WellFormed(q) && q.next == c.pages[c.order[k]].next && 0 <= i < |Leaves(c)[k]|
    ensures Records(q) == Leaves(c)[k][i := BytesOf(table, record)]
    ensures PrimaryKeyOf(table, Leaves(c)[k][i]).Done?
    ensures Compare(PrimaryKeyOf(table, Leaves(c)[k][i]).value, RecordKey(table, record)) == Equal
  {
    assert LinkedAt(c, k);
    LeafOfContent(table, c, k, RecordKey(table, record), Leaves(c)[k], i);
    UpdateKeepsSorted(table, c.pages[c.order[k]], record);
  }

  lemma WriteReplaces(c: Chain, k: nat, q: Page, c': Chain, at: nat, i: nat, d: Data)
    requires Linked(c) && k < |c.order| && WellFormed(q) && q.next == c.pages[c.order[k]].next
    requires c' == AfterWrite(c, k, q)
    requires i == at - Start(c, k) && i < |Leaves(c)[k]| && Records(q) == Leaves(c)[k][i := d]
    ensures Linked(c') && c'.order == c.order
    ensures at < |Content(c)| && Content(c)[at] == Leaves(c)[k][i] && Content(c') == Content(c)[at := d]
  {
    WriteLinks(c, k, q, c');
    ReplacedContent(Leaves(c), k, Records(q), at, d);
  }

  lemma KeyOfEntry(table: Table, rs: seq<Data>, at: nat, d: Data)
    requires Keyed(table, rs) && at < |rs| && rs[at] == d
    ensures PrimaryKeyOf(table, d).Done? && Keys(table, rs)[at] == PrimaryKeyOf(table, d).value
  {
  }

  lemma UpdateKeepsChain(table: Table, c: Chain, k: nat, record: Record, q: Page, c': Chain, at: nat, i: int)
    requires Sound(table, c) && Insertable(table, record) && BelongsIn(table, c, k, RecordKey(table, record))
    requires Keyed(table, Leaves(c)[k]) && UpdateKeyed(table, c.pages[c.order[k]], record) == Ok(q)
    requires c' == AfterWrite(c, k, q) && at == LowerBound(Keys(table, Content(c)), RecordKey(table, record))
    requires i == at - Start(c, k)
    ensures Linked(c') && c'.order == c.order
    ensures at < |Content(c)| && Compare(Keys(table, Content(c))[at], RecordKey(table, record)) == Equal
    ensures Content(c') == Content(c)[at := BytesOf(table, record)]
  {
    UpdatedLeaf(table, c, k, record, q, at, i);
    WriteReplaces(c, k, q, c', at, i, BytesOf(table, record));
    KeyOfEntry(table, Content(c), at, Leaves(c)[k][i]);
  }

  lemma ReplacedContent(lists: seq<seq<Data>>, k: nat, rs: seq<Data>, at: nat, d: Data)
    requires k < |lists| && |Concat(lists[..k])| <= at < |Concat(lists[..k])| + |lists[k]|
    requires rs == lists[k][at - |Concat(lists[..k])| := d]
    ensures at < |Concat(lists)| && Concat(lists)[at] == lists[k][at - |Concat(lists[..k])|]
    ensures Concat(lists[k := rs]) == Concat(lists)[at := d]
  {
    ContentAround(lists, k);
    WrittenContent(lists, k, rs);
    ReplacedInMiddle(Concat(lists[..k]), lists[k], Concat(lists[k + 1..]), at, d);
  }

  // ---------------------------------------------------------------- bindings

  lemma InsertedBinding(table: Table, rs: seq<Data>, record: Record, at: nat, rs': seq<Data>, key: Key)
    requires Insertable(table, record) && SortedLeaf(table, rs) && !Present(Keys(table, rs), RecordKey(table, record))
    requires at == LowerBound(Keys(table, rs), RecordKey(table, record))
    requires rs' == WithRecord(rs, at, BytesOf(table, record))
    ensures SortedLeaf(table, rs')
    ensures Lookup(table, rs', key) ==
            if Compare(RecordKey(table, record), key) == Equal then Some(BytesOf(table, record))
            else Lookup(table, rs, key)
  {
    WithRecordSorted(table, rs, record);
    LookupInserted(table, rs, at, RecordKey(table, record), BytesOf(table, record), rs', key);
  }

  lemma ReplacedBinding(table: Table, rs: seq<Data>, record: Record, at: nat, rs': seq<Data>, key: Key)
    requires Insertable(table, record) && SortedLeaf(table, rs)
    requires at < |rs| && Compare(Keys(table, rs)[at], RecordKey(table, record)) == Equal
    requires rs' == rs[at := BytesOf(table, record)]
    ensures SortedLeaf(table, rs')
    ensures Lookup(table, rs', key) ==
            if Compare(RecordKey(table, record), key) == Equal then Some(BytesOf(table, record))
            else Lookup(table, rs, key)
  {
    KeysReplaced(table, rs, record, at, rs');
    LookupReplaced(table, rs, at, RecordKey(table, record), BytesOf(table, record), rs', key);
  }

  lemma KeysReplaced(table: Table, rs: seq<Data>, record: Record, at: nat, rs': seq<Data>)
    requires Insertable(table, record) && SortedLeaf(table, rs)
    requires at < |rs| && Compare(Keys(table, rs)[at], RecordKey(table, record)) == Equal
    requires rs' == rs[at := BytesOf(table, record)]
    ensures SortedLeaf(table, rs') && Keys(table, rs') == Keys(table, rs)[at := RecordKey(table, record)]
  {
    KeyOfBytes(table, record);
    forall j | 0 <= j < |rs'| ensures PrimaryKeyOf(table, rs'[j]).Done? {
      if j != at { assert rs'[j] == rs[j]; }
    }
    assert Keys(table, rs') == Keys(table, rs)[at := RecordKey(table, record)];
    AscendingReplace(Keys(table, rs), at, RecordKey(table, record));
  }

  lemma LookupReplaced(table: Table, rs: seq<Data>, at: nat, newKey: Key, d: Data, rs': seq<Data>, key: Key)
    requires SortedLeaf(table, rs) && SortedLeaf(table, rs') && at < |rs|
    requires Compare(Keys(table, rs)[at], newKey) == Equal
    requires rs' == rs[at := d] && Keys(table, rs') == Keys(table, rs)[at := newKey]
    ensures Lookup(table, rs', key) == if Compare(newKey, key) == Equal then Some(d) else Lookup(table, rs, key)
  {
    var keys := Keys(table, rs);
    LowerBoundSeparates(keys, key);
    Flip(keys[at], newKey);
    if Compare(newKey, key) == Equal {
      FoundAt(table, rs', key, at);
    } else if Present(keys, key) {
      var j := LowerBound(keys, key);
      if j == at { Transitive(newKey, keys[at], key); }
      FoundAt(table, rs', key, j);
    } else {
      NotFound(table, rs', key);
    }
  }

  // ---------------------------------------------------------------- runs

  datatype ChainOp =
    | InsertInto(k: nat, record: Record)
    | UpdateIn(k: nat, record: Record)
    | SplitOnto(k: nat, newPage: nat, record: Record)
    | MergeNext(k: nat)

  /** What the caller sees to. An insert or update goes to the leaf its key is routed to, whether the
      chain has the key or not. A split is asked for a key the chain does not have, since splitting
      checks nothing itself. */
  predicate Asked(table: Table, c: Chain, op: ChainOp)
    requires Sound(table, c)
  {
    match op
    case InsertInto(k, record) => Insertable(table, record) && Routed(table, c, k, RecordKey(table, record))
    case UpdateIn(k, record) => Insertable(table, record) && Routed(table, c, k, RecordKey(table, record))
    case SplitOnto(k, newPage, record) => CanSplit(table, c, k, newPage, record)
    case MergeNext(k) => k + 1 < |c.order|
  }

  function InsertOutcome(table: Table, c: Chain, op: ChainOp): Result<Page>
    requires Sound(table, c) && op.InsertInto? && Asked(table, c, op)
  {
    LeafIsSorted(table, c, op.k);
    InsertKeyed(table, c.pages[c.order[op.k]], op.record)
  }

  function UpdateOutcome(table: Table, c: Chain, op: ChainOp): Result<Page>
    requires Sound(table, c) && op.UpdateIn? && Asked(table, c, op)
  {
    LeafIsSorted(table, c, op.k);
    UpdateKeyed(table, c.pages[c.order[op.k]], op.record)
  }

  function SplitOf(table: Table, c: Chain, op: ChainOp): SplitOutcome
    requires Sound(table, c) && op.SplitOnto? && Asked(table, c, op)
  {
    LeafIsSorted(table, c, op.k);
    SplitLeaf(table, c.pages[c.order[op.k]], c.pages[op.newPage], op.record, c.order[op.k], op.newPage)
  }

  function MergeOf(c: Chain, op: ChainOp): MergeOutcome
    requires HasPages(c) && op.MergeNext? && op.k + 1 < |c.order|
  {
    MergePages(c.pages[c.order[op.k]], c.pages[c.order[op.k + 1]])
  }

  /** What the call returns. */
  function Answer(table: Table, c: Chain, op: ChainOp): Result<()>
    requires Sound(table, c) && Asked(table, c, op)
  {
    match op
    case InsertInto(_, _) => (match InsertOutcome(table, c, op) case Ok(_) => Ok(()) case Err(e) => Err(e))
    case UpdateIn(_, _) => (match UpdateOutcome(table, c, op) case Ok(_) => Ok(()) case Err(e) => Err(e))
    case SplitOnto(_, _, _) =>
      (match SplitOf(table, c, op) case Split(_, _, _) => Ok(()) case Refused(e) => Err(e)
          case Broken(_, _) => Err(PageFull))
    case MergeNext(_) =>
      (match MergeOf(c, op) case Merged(_, _) => Ok(()) case Unchanged(e) => Err(e)
          case Torn(_) => Err(InsertRecordFailed))
  }

  /** A split that fails half-way: see SplitLosesRecord. */
  predicate Breaks(table: Table, c: Chain, op: ChainOp)
    requires Sound(table, c) && Asked(table, c, op)
  {
    op.SplitOnto? && SplitOf(table, c, op).Broken?
  }

  /** The chain after a call; a refused one leaves it as it was. */
  function Apply(table: Table, c: Chain, op: ChainOp): Chain
    requires Sound(table, c) && Asked(table, c, op)
  {
    if Answer(table, c, op).Err? then c
    else
      match op
      case InsertInto(k, _) => AfterWrite(c, k, InsertOutcome(table, c, op).value)
      case UpdateIn(k, _) => AfterWrite(c, k, UpdateOutcome(table, c, op).value)
      case SplitOnto(k, newPage, _) =>
        AfterSplit(c, k, newPage, SplitOf(table, c, op).left, SplitOf(table, c, op).right)
      case MergeNext(k) => AfterMerge(c, k, MergeOf(c, op).left, MergeOf(c, op).right)
  }

  /** The record an operation writes, if any. */
  function WrittenBy(op: ChainOp): Option<Record> {
    match op
    case InsertInto(_, record) => Some(record)
    case UpdateIn(_, record) => Some(record)
    case SplitOnto(_, _, record) => Some(record)
    case MergeNext(_) => None
  }

  /** What a lookup finds after an operation, given what it found before. */
  function Rebound(table: Table, op: ChainOp, key: Key, before: Option<Data>): Option<Data> {
    match WrittenBy(op)
    case None => before
    case Some(record) =>
      if Insertable(table, record) && Compare(RecordKey(table, record), key) == Equal then Some(BytesOf(table, record))
      else before
  }

  lemma NonemptyBytes(table: Table, record: Record)
    requires Insertable(table, record) && table.columns != []
    ensures |BytesOf(table, record)| > 0
  {
    StorableEncodedLength(table, record);
  }

  lemma StorableEncodedLength(table: Table, record: Record)
    requires Insertable(table, record)
    ensures |BytesOf(table, record)| >= BitmapSize(table.columns)
  {
  }

  /** The content after a call that succeeds: the new record at its place, the old one replaced, or
      nothing changed. */
  ghost predicate ContentBecomes(table: Table, op: ChainOp, rs: seq<Data>, rs': seq<Data>)
    requires Keyed(table, rs)
  {
    match op
    case MergeNext(_) => rs' == rs
    case UpdateIn(_, record) =>
      && Insertable(table, record)
      && var at := LowerBound(Keys(table, rs), RecordKey(table, record));
         at < |rs| && rs' == rs[at := BytesOf(table, record)]
    case _ =>
      && Insertable(table, op.record)
      && rs' == WithRecord(rs, LowerBound(Keys(table, rs), RecordKey(table, op.record)), BytesOf(table, op.record))
  }

  /** What one call does: the chain stays sound, a refused call leaves content and bindings, and one
      that succeeds changes the content at the one place and the one binding it should. */
  ghost predicate StepIs(table: Table, c: Chain, op: ChainOp, ok: bool, c': Chain, key: Key)
    requires Sound(table, c)
  {
    && Sound(table, c')
    && (if ok then ContentBecomes(table, op, Content(c), Content(c')) else c' == c)
    && Lookup(table, Content(c'), key) ==
       if ok then Rebound(table, op, key, Lookup(table, Content(c), key)) else Lookup(table, Content(c), key)
  }

  lemma InsertedStepIs(table: Table, c: Chain, op: ChainOp, c': Chain, at: nat, key: Key)
    requires Sound(table, c) && (op.InsertInto? || op.SplitOnto?) && Insertable(table, op.record) && table.columns != []
    requires !Present(Keys(table, Content(c)), RecordKey(table, op.record))
    requires at == LowerBound(Keys(table, Content(c)), RecordKey(table, op.record))
    requires Linked(c') && Content(c') == WithRecord(Content(c), at, BytesOf(table, op.record))
    ensures StepIs(table, c, op, true, c', key)
  {
    NonemptyBytes(table, op.record);
    InsertedBinding(table, Content(c), op.record, at, Content(c'), key);
  }

  lemma ReplacedStepIs(table: Table, c: Chain, op: ChainOp, c': Chain, at: nat, key: Key)
    requires Sound(table, c) && op.UpdateIn? && Insertable(table, op.record) && table.columns != []
    requires at == LowerBound(Keys(table, Content(c)), RecordKey(table, op.record))
    requires at < |Content(c)| && Compare(Keys(table, Content(c))[at], RecordKey(table, op.record)) == Equal
    requires Linked(c') && Content(c') == Content(c)[at := BytesOf(table, op.record)]
    ensures StepIs(table, c, op, true, c', key)
  {
    NonemptyBytes(table, op.record);
    ReplacedBinding(table, Content(c), op.record, at, Content(c'), key);
  }

  lemma InsertStep(table: Table, c: Chain, op: ChainOp, q: Page, c': Chain, at: nat, key: Key)
    requires Sound(table, c) && op.InsertInto? && Asked(table, c, op) && table.columns != []
    requires InsertOutcome(table, c, op) == Ok(q) && c' == AfterWrite(c, op.k, q)
    requires at == LowerBound(Keys(table, Content(c)), RecordKey(table, op.record))
    ensures StepIs(table, c, op, true, c', key)
  {
    LeafSearch(table, c, op.k, RecordKey(table, op.record), Records(c.pages[c.order[op.k]]), at);
    InsertKeepsChain(table, c, op.k, op.record, q, c', at, at - Start(c, op.k));
    InsertedStepIs(table, c, op, c', at, key);
  }

  lemma UpdateStep(table: Table, c: Chain, op: ChainOp, q: Page, c': Chain, at: nat, key: Key)
    requires Sound(table, c) && op.UpdateIn? && Asked(table, c, op) && table.columns != []
    requires UpdateOutcome(table, c, op) == Ok(q) && c' == AfterWrite(c, op.k, q)
    requires at == LowerBound(Keys(table, Content(c)), RecordKey(table, op.record))
    ensures StepIs(table, c, op, true, c', key)
  {
    LeafSearch(table, c, op.k, RecordKey(table, op.record), Records(c.pages[c.order[op.k]]), at);
    UpdateKeepsChain(table, c, op.k, op.record, q, c', at, at - Start(c, op.k));
    ReplacedStepIs(table, c, op, c', at, key);
  }

  lemma SplitStep(table: Table, c: Chain, op: ChainOp, o: SplitOutcome, c': Chain, at: nat, key: Key)
    requires Sound(table, c) && op.SplitOnto? && Asked(table, c, op) && table.columns != []
    requires o == SplitOf(table, c, op) && o.Split? && c' == AfterSplit(c, op.k, op.newPage, o.left, o.right)
    requires at == LowerBound(Keys(table, Content(c)), RecordKey(table, op.record))
    ensures StepIs(table, c, op, true, c', key)
  {
    LeafIsSorted(table, c, op.k);
    SplitKeepsChain(table, c, op.k, op.newPage, op.record, o, c', at);
    InsertedStepIs(table, c, op, c', at, key);
  }

  /** Every call but a split that breaks: it keeps the chain sound, and does to content and bindings
      what it should, or nothing when it is refused. */
  lemma StepKeepsChain(table: Table, c: Chain, op: ChainOp, key: Key)
    requires Sound(table, c) && Asked(table, c, op) && !Breaks(table, c, op) && table.columns != []
    ensures StepIs(table, c, op, Answer(table, c, op).Ok?, Apply(table, c, op), key)
  {
    var c' := Apply(table, c, op);
    if Answer(table, c, op).Ok? {
      match op
      case InsertInto(_, record) =>
        var at := LowerBound(Keys(table, Content(c)), RecordKey(table, record));
        InsertStep(table, c, op, InsertOutcome(table, c, op).value, c', at, key);
      case UpdateIn(_, record) =>
        var at := LowerBound(Keys(table, Content(c)), RecordKey(table, record));
        UpdateStep(table, c, op, UpdateOutcome(table, c, op).value, c', at, key);
      case SplitOnto(_, _, record) =>
        var at := LowerBound(Keys(table, Content(c)), RecordKey(table, record));
        SplitStep(table, c, op, SplitOf(table, c, op), c', at, key);
      case MergeNext(k) => MergeKeepsChain(c, k, c');
    }
  }

  /** What each call answers: DuplicateKey exactly when the chain has the key, KeyNotFound exactly when
      it does not, and otherwise an error only for want of space. */
  ghost predicate Answers(table: Table, c: Chain, op: ChainOp, answer: Result<()>)
    requires Sound(table, c) && Asked(table, c, op)
  {
    match op
    case InsertInto(k, record) =>
      && (answer == Err(DuplicateKey) <==> Lookup(table, Content(c), RecordKey(table, record)).Some?)
      && (answer.Err? && answer.error != DuplicateKey ==>
            answer.error == PageFull && Contiguous(c.pages[c.order[k]]) < |BytesOf(table, record)| + SLOT_SIZE)
    case UpdateIn(k, record) =>
      && (answer == Err(KeyNotFound) <==> Lookup(table, Content(c), RecordKey(table, record)).None?)
      && (answer.Err? && answer.error != KeyNotFound ==>
            answer.error == PageFull && Contiguous(c.pages[c.order[k]]) < |BytesOf(table, record)|)
    case SplitOnto(_, newPage, _) =>
      answer == Err(NewRightSiblingNotEmpty) <==> Records(c.pages[newPage]) != []
    case MergeNext(k) =>
      && (answer.Ok? <==> Needed(Records(c.pages[c.order[k + 1]])) <= Contiguous(c.pages[c.order[k]]))
      && (answer.Err? ==> answer.error == InsufficientSpaceForMerge)
  }

  lemma StepAnswers(table: Table, c: Chain, op: ChainOp)
    requires Sound(table, c) && Asked(table, c, op)
    ensures Answers(table, c, op, Answer(table, c, op))
  {
    match op
    case InsertInto(k, record) => InsertAnswers(table, c, op, c.pages[c.order[k]]);
    case UpdateIn(k, record) => UpdateAnswers(table, c, op, c.pages[c.order[k]]);
    case SplitOnto(_, _, _) => SplitAnswers(table, c, op);
    case MergeNext(k) =>
      assert LinkedAt(c, k) && LinkedAt(c, k + 1);
      MergeExactly(c.pages[c.order[k]], c.pages[c.order[k + 1]]);
  }

  lemma SplitAnswers(table: Table, c: Chain, op: ChainOp)
    requires Sound(table, c) && op.SplitOnto? && Asked(table, c, op)
    ensures Answers(table, c, op, Answer(table, c, op))
  {
  }

  lemma InsertAnswers(table: Table, c: Chain, op: ChainOp, p: Page)
    requires Sound(table, c) && op.InsertInto? && Asked(table, c, op) && p == c.pages[c.order[op.k]]
    ensures Answers(table, c, op, Answer(table, c, op))
  {
    assert LinkedAt(c, op.k);
    var key := RecordKey(table, op.record);
    LeafSearch(table, c, op.k, key, Records(p), LowerBound(Keys(table, Content(c)), key));
    InsertKeepsSorted(table, p, op.record);
  }

  lemma UpdateAnswers(table: Table, c: Chain, op: ChainOp, p: Page)
    requires Sound(table, c) && op.UpdateIn? && Asked(table, c, op) && p == c.pages[c.order[op.k]]
    ensures Answers(table, c, op, Answer(table, c, op))
  {
    assert LinkedAt(c, op.k);
    var key := RecordKey(table, op.record);
    LeafSearch(table, c, op.k, key, Records(p), LowerBound(Keys(table, Content(c)), key));
    UpdateKeepsSorted(table, p, op.record);
  }

  /** The chain after a run of calls, refused ones included; None when a call was not one a caller may
      make, or a split broke the chain. */
  function RunChain(table: Table, c: Chain, ops: seq<ChainOp>): Option<Chain> {
    if ops == [] then Some(c)
    else
      match RunChain(table, c, ops[..|ops| - 1])
      case None => None
      case Some(m) =>
        var op := ops[|ops| - 1];
        if Sound(table, m) && Asked(table, m, op) && !Breaks(table, m, op) then Some(Apply(table, m, op)) else None
  }

  /** The bytes last written under a key, by the calls of a run that were not refused. */
  function LastWritten(table: Table, c: Chain, ops: seq<ChainOp>, key: Key): Option<Data>
    requires RunChain(table, c, ops).Some?
  {
    if ops == [] then None
    else
      var before, op := ops[..|ops| - 1], ops[|ops| - 1];
      var old' := LastWritten(table, c, before, key);
      if Answer(table, RunChain(table, c, before).value, op).Ok? then Rebound(table, op, key, old') else old'
  }

  /** A chain of one fresh leaf. */
  predicate FreshChain(c: Chain, parent: Option<nat>) {
    && |c.order| == 1 && c.order[0] in c.pages && c.order[0] < INVALID_INDEX
    && c.pages[c.order[0]] == Initialize(LEAF_KIND, parent)
  }

  lemma FreshLeafIsSound(table: Table, c: Chain, parent: Option<nat>)
    requires FreshChain(c, parent)
    ensures Sound(table, c) && BackLinked(c) && Content(c) == []
  {
    assert Leaves(c) == [[]];
    ConcatOne([]);
  }

  /** From one fresh leaf the chain is a sorted map over every run, refused calls included: it stays
      linked and sorted, and a lookup finds what was last written under the key. */
  lemma {:induction false} RunIsSortedMap(table: Table, c: Chain, parent: Option<nat>, ops: seq<ChainOp>,
                                          c': Chain, key: Key)
    requires FreshChain(c, parent) && table.columns != []
    requires RunChain(table, c, ops) == Some(c')
    ensures Sound(table, c')
    ensures Lookup(table, Content(c'), key) == LastWritten(table, c, ops, key)
  {
    if ops == [] {
      FreshLeafIsSound(table, c, parent);
    } else {
      var n := |ops| - 1;
      var m := RunChain(table, c, ops[..n]).value;
      RunIsSortedMap(table, c, parent, ops[..n], m, key);
      StepKeepsChain(table, m, ops[n], key);
    }
  }

  /** After every run from one fresh leaf, an insert reports DuplicateKey exactly when something was
      written under its key, and an update KeyNotFound exactly when nothing was. */
  lemma RunAnswers(table: Table, c: Chain, parent: Option<nat>, ops: seq<ChainOp>, m: Chain, op: ChainOp)
    requires FreshChain(c, parent) && table.columns != []
    requires RunChain(table, c, ops) == Some(m) && Sound(table, m) && Asked(table, m, op)
    ensures op.InsertInto? ==>
              (Answer(table, m, op) == Err(DuplicateKey) <==>
                  LastWritten(table, c, ops, RecordKey(table, op.record)).Some?)
    ensures op.UpdateIn? ==>
              (Answer(table, m, op) == Err(KeyNotFound) <==>
                  LastWritten(table, c, ops, RecordKey(table, op.record)).None?)
  {
    if op.InsertInto? || op.UpdateIn? {
      RunIsSortedMap(table, c, parent, ops, m, RecordKey(table, op.record));
      StepAnswers(table, m, op);
    }
  }
}
