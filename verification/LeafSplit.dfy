/** Splitting a leaf around a new record, and merging a leaf with its right sibling, on page values. */
module LeafSplit {
  import opened Bytes
  import opened Outcomes
  import opened DataModel
  import opened KeyOrder
  import opened PageLayout
  import opened PageRuns
  import opened LeafSpec

  // ---------------------------------------------------------------- appending

  /** A page after appending as many records as fit, in order, and how many that were. */
  datatype Filled = Filled(page: Page, count: nat)

  function AppendAll(p: Page, rs: seq<Data>): (f: Filled)
    ensures f.count <= |rs|
  {
    if rs == [] then Filled(p, 0)
    else
      var f := AppendAll(p, rs[..|rs| - 1]);
      if f.count < |rs| - 1 then f
      else
        match Insert(f.page, |f.page.cells|, rs[|rs| - 1])
        case Ok(q) => Filled(q, f.count + 1)
        case Err(_) => f
  }

  /** Space a list of records needs on a page. */
  function Needed(rs: seq<Data>): nat { Total(rs) + SLOT_SIZE * |rs| }

  predicate SameLinks(p: Page, q: Page) {
    p.parent == q.parent && p.prev == q.prev && p.next == q.next && p.kind == q.kind && p.lsn == q.lsn
  }

  /** Appending all of a list succeeds exactly when the list with its slots fits, and otherwise the
      page holds the part that went in. */
  lemma {:induction false} AppendAllKeeps(p: Page, rs: seq<Data>)
    requires WellFormed(p)
    ensures var f := AppendAll(p, rs);
            && WellFormed(f.page) && SameLinks(p, f.page)
            && Records(f.page) == Records(p) + rs[..f.count]
            && Contiguous(f.page) == Contiguous(p) - Needed(rs[..f.count])
            && (f.count == |rs| <==> Needed(rs) <= Contiguous(p))
  {
    var f := AppendAll(p, rs);
    if rs == [] {
      assert Records(p) + rs[..0] == Records(p);
      LiveFits(p);
    } else {
      var n := |rs| - 1;
      AppendAllKeeps(p, rs[..n]);
      var g := AppendAll(p, rs[..n]);
      assert rs[..n][..g.count] == rs[..g.count];
      if g.count == n {
        AppendOneKeeps(g.page, rs[n]);
        if f.count == |rs| {
          assert rs[..f.count] == rs;
          assert Records(p) + rs[..n] + [rs[n]] == Records(p) + rs;
        }
      }
    }
  }

  lemma AppendOneKeeps(p: Page, r: Data)
    requires WellFormed(p)
    ensures Insert(p, |p.cells|, r).Ok? <==> |r| + SLOT_SIZE <= Contiguous(p)
    ensures Insert(p, |p.cells|, r).Ok? ==>
              var q := Insert(p, |p.cells|, r).value;
              && WellFormed(q) && SameLinks(p, q) && Records(q) == Records(p) + [r]
              && Contiguous(q) == Contiguous(p) - |r| - SLOT_SIZE
  {
    InsertKeeps(p, |p.cells|, r);
    assert Records(p)[..|p.cells|] == Records(p);
  }

  // ---------------------------------------------------------------- where to split

  /** First index whose key is greater than `key`. */
  function InsertPoint(keys: seq<Key>, key: Key): (i: nat)
    ensures i <= |keys|
    ensures forall j :: 0 <= j < i ==> Compare(key, keys[j]) != Less
    ensures i < |keys| ==> Compare(key, keys[i]) == Less
  {
    if keys == [] then 0
    else if Compare(key, keys[0]) == Less then 0
    else 1 + InsertPoint(keys[1..], key)
  }

  function WithRecord(rs: seq<Data>, i: nat, d: Data): seq<Data>
    requires i <= |rs|
  {
    rs[..i] + [d] + rs[i..]
  }

  /** The size the split is balanced on; it leaves the new record out when that goes last. */
  function SplitTotal(rs: seq<Data>, i: nat, d: Data): nat
    requires i <= |rs|
  {
    Total(rs) + if i < |rs| then |d| else 0
  }

  /** First index at which the running size exceeds half of `total`. */
  function SplitIndexFrom(rs: seq<Data>, total: nat, i: nat): (s: nat)
    requires i <= |rs| && Total(rs[..i]) <= total / 2
    ensures i <= s <= |rs|
    ensures Total(rs[..s]) <= total / 2
    ensures s < |rs| ==> Total(rs[..s + 1]) > total / 2
    decreases |rs| - i
  {
    if i == |rs| || Total(rs[..i + 1]) > total / 2 then i else SplitIndexFrom(rs, total, i + 1)
  }

  function SplitIndex(rs: seq<Data>, total: nat): nat { SplitIndexFrom(rs, total, 0) }

  // ---------------------------------------------------------------- the split

  datatype SplitOutcome =
    | Split(left: Page, right: Page, separator: Key)
    | Refused(error: StorageError)
    | Broken(left: Page, right: Page)   // page full after the left page was rewritten

  /** The parent that `split_and_insert` reads back: parent and previous sibling as one number. */
  function ReadParent(p: Page): Option<nat> {
    var raw := p.parent + U32_LIMIT * p.prev;
    if raw == U64_LIMIT - 1 then None else Some(raw)
  }

  function SplitPages(left: Page, right: Page, rs: seq<Data>, s: nat, leftIndex: nat, rightIndex: nat, separator: Key)
    : SplitOutcome
    requires s <= |rs|
  {
    var l := AppendAll(Initialize(LEAF_KIND, ReadParent(left)), rs[..s]);
    if l.count < s then Broken(l.page, right)
    else
      var r := AppendAll(right, rs[s..]);
      if r.count < |rs| - s then Broken(l.page, r.page)
      else Split(l.page.(next := rightIndex), r.page.(next := left.next, prev := leftIndex), separator)
  }

  function SplitLeaf(table: Table, left: Page, right: Page, record: Record, leftIndex: nat, rightIndex: nat)
    : SplitOutcome
    requires Insertable(table, record) && Keyed(table, Records(left)) && |BytesOf(table, record)| > 0
  {
    if |right.cells| != 0 then Refused(NewRightSiblingNotEmpty)
    else
      var rs, d, key := Records(left), BytesOf(table, record), RecordKey(table, record);
      var i := InsertPoint(Keys(table, rs), key);
      var all := WithRecord(rs, i, d);
      var s := SplitIndex(all, SplitTotal(rs, i, d));
      SplitIndexExists(rs, i, d);
      SplitPages(left, right, all, s, leftIndex, rightIndex,
                 (Keys(table, rs)[..i] + [key] + Keys(table, rs)[i..])[s])
  }

  lemma TotalWith(rs: seq<Data>, i: nat, d: Data)
    requires i <= |rs|
    ensures Total(WithRecord(rs, i, d)) == Total(rs) + |d|
  {
    TotalInsert(rs, i, d);
  }

  /** With a nonempty new record the split index is always that of a record. */
  lemma SplitIndexExists(rs: seq<Data>, i: nat, d: Data)
    requires i <= |rs| && |d| > 0
    ensures SplitIndex(WithRecord(rs, i, d), SplitTotal(rs, i, d)) <= |rs|
  {
    var all := WithRecord(rs, i, d);
    TotalWith(rs, i, d);
    var s := SplitIndex(all, SplitTotal(rs, i, d));
    assert all[..|all|] == all;
  }

  /** What of the header survives the rewrite of the left page: the low half of the parent. The
      previous-sibling link does not. */
  lemma RewrittenHeader(p: Page)
    requires p.parent < U32_LIMIT && p.prev < U32_LIMIT
    ensures Initialize(LEAF_KIND, ReadParent(p)).parent == p.parent
    ensures Initialize(LEAF_KIND, ReadParent(p)).prev == INVALID_INDEX
    ensures LinkOf(Initialize(LEAF_KIND, ReadParent(p)).prev) == LinkOf(p.prev) <==> LinkOf(p.prev) == None
  {
  }

  /** The left page after the rewrite: the parent's low half is that of the old page, and the rest of
      the header is that of a fresh leaf. */
  predicate Rewritten(p: Page, l: Page) {
    l.parent == p.parent && l.kind == 1 && l.lsn == Zeros(8) && l.prev == INVALID_INDEX
  }

  /** What appending leaves of a header. */
  predicate HeaderKept(p: Page, q: Page) { q.parent == p.parent && q.kind == p.kind && q.lsn == p.lsn }

  /** The headers after a split, whether it is Ok or breaks. */
  lemma SplitKeepsHeaders(table: Table, left: Page, right: Page, record: Record, leftIndex: nat, rightIndex: nat,
                          o: SplitOutcome)
    requires Insertable(table, record) && Keyed(table, Records(left)) && |BytesOf(table, record)| > 0
    requires WellFormed(right) && left.parent < U32_LIMIT && left.prev < U32_LIMIT
    requires o == SplitLeaf(table, left, right, record, leftIndex, rightIndex)
    ensures match o
            case Refused(e) => e == NewRightSiblingNotEmpty && Records(right) != []
            case Split(l, r, _) =>
              && Rewritten(left, l) && l.next == rightIndex
              && HeaderKept(right, r) && r.next == left.next && r.prev == leftIndex
            case Broken(l, r) =>
              && Rewritten(left, l) && l.next == INVALID_INDEX
              && HeaderKept(right, r) && r.next == right.next && r.prev == right.prev
  {
    if right.cells == [] {
      var rs, d := Records(left), BytesOf(table, record);
      var i := InsertPoint(Keys(table, rs), RecordKey(table, record));
      SplitIndexExists(rs, i, d);
      var all := WithRecord(rs, i, d);
      PagesKeepHeaders(left, right, all, SplitIndex(all, SplitTotal(rs, i, d)));
    }
  }

  lemma PagesKeepHeaders(left: Page, right: Page, all: seq<Data>, s: nat)
    requires s <= |all| && WellFormed(right) && left.parent < U32_LIMIT && left.prev < U32_LIMIT
    ensures var l := AppendAll(Initialize(LEAF_KIND, ReadParent(left)), all[..s]).page;
            Rewritten(left, l) && l.next == INVALID_INDEX
    ensures SameLinks(right, AppendAll(right, all[s..]).page)
  {
    RewrittenHeader(left);
    AppendAllKeeps(Initialize(LEAF_KIND, ReadParent(left)), all[..s]);
    AppendAllKeeps(right, all[s..]);
  }

  // ---------------------------------------------------------------- capacity

  lemma NeededSplit(rs: seq<Data>, s: nat)
    requires s <= |rs|
    ensures Needed(rs) == Needed(rs[..s]) + Needed(rs[s..])
  {
    assert rs == rs[..s] + rs[s..];
    TotalConcat(rs[..s], rs[s..]);
  }

  lemma {:induction false} NonemptyTotal(rs: seq<Data>)
    requires forall k :: 0 <= k < |rs| ==> |rs[k]| > 0
    ensures Total(rs) >= |rs|
  {
    if rs != [] { NonemptyTotal(rs[..|rs| - 1]); }
  }

  /** The records that go left fit on an empty page: either the new one is not among them, or it is
      and pays for itself with the old ones that are not. */
  lemma LeftFits(rs: seq<Data>, i: nat, d: Data)
    requires i <= |rs| && |d| > 0 && Needed(rs) <= PAGE_SIZE - HEADER_SIZE
    requires forall k :: 0 <= k < |rs| ==> |rs[k]| > 0
    ensures var all := WithRecord(rs, i, d); var s := SplitIndex(all, SplitTotal(rs, i, d));
            && s <= |rs|
            && Total(all[..s]) <= SplitTotal(rs, i, d) / 2
            && Needed(all[..s]) <= PAGE_SIZE - HEADER_SIZE
  {
    var all := WithRecord(rs, i, d);
    var s := SplitIndex(all, SplitTotal(rs, i, d));
    SplitIndexExists(rs, i, d);
    TotalWith(rs, i, d);
    if s <= i {
      assert all[..s] == rs[..s];
      NeededSplit(rs, s);
    } else {
      assert all[..s] == WithRecord(rs[..s - 1], i, d);
      TotalWith(rs[..s - 1], i, d);
      NeededSplit(rs, s - 1);
      NonemptyTotal(rs[s - 1..]);
    }
  }

  /** What a split that puts `all[..s]` left and `all[s..]` right ends in. */
  ghost predicate SplitsInto(left: Page, right: Page, all: seq<Data>, s: nat, leftIndex: nat, rightIndex: nat,
                             o: SplitOutcome)
    requires s <= |all|
  {
    match o
    case Split(l, r, _) =>
      && Needed(all[s..]) <= Contiguous(right)
      && WellFormed(l) && WellFormed(r) && Records(l) == all[..s] && Records(r) == all[s..]
      && l.next == rightIndex && r.next == left.next && r.prev == leftIndex && l.prev == INVALID_INDEX
    case Broken(l, r) =>
      && Needed(all[s..]) > Contiguous(right)
      && Records(l) == all[..s]
      && |Records(r)| < |all| - s && Records(r) == all[s..s + |Records(r)|]
    case Refused(_) => false
  }

  /** On a well-formed leaf of nonempty records the split is Ok exactly when the records that go
      right fit on the right page; nothing is lost on the left, which gets at most half the size. */
  lemma SplitExactly(left: Page, right: Page, i: nat, d: Data, leftIndex: nat, rightIndex: nat, separator: Key)
    requires WellFormed(left) && WellFormed(right) && right.cells == [] && i <= |left.cells| && |d| > 0
    requires forall k :: 0 <= k < |left.cells| ==> |Records(left)[k]| > 0
    ensures var all := WithRecord(Records(left), i, d);
            var s := SplitIndex(all, SplitTotal(Records(left), i, d));
            && s < |all| && Total(all[..s]) <= SplitTotal(Records(left), i, d) / 2
            && SplitsInto(left, right, all, s, leftIndex, rightIndex,
                          SplitPages(left, right, all, s, leftIndex, rightIndex, separator))
  {
    var rs := Records(left);
    var all := WithRecord(rs, i, d);
    var s := SplitIndex(all, SplitTotal(rs, i, d));
    LiveFits(left);
    LeftFits(rs, i, d);
    SplitOnto(left, right, all, s, leftIndex, rightIndex, separator);
  }

  lemma SplitOnto(left: Page, right: Page, all: seq<Data>, s: nat, leftIndex: nat, rightIndex: nat, separator: Key)
    requires s <= |all| && Needed(all[..s]) <= PAGE_SIZE - HEADER_SIZE && WellFormed(right) && right.cells == []
    ensures SplitsInto(left, right, all, s, leftIndex, rightIndex,
                       SplitPages(left, right, all, s, leftIndex, rightIndex, separator))
  {
    LeftFilled(left, all, s);
    RightFilled(right, all, s);
    var l, r := AppendAll(Initialize(LEAF_KIND, ReadParent(left)), all[..s]).page, AppendAll(right, all[s..]);
    if r.count == |all| - s { RelinkedRecords(l, r.page, leftIndex, rightIndex, left.next); }
  }

  lemma RelinkedRecords(l: Page, r: Page, leftIndex: nat, rightIndex: nat, next: nat)
    requires WellFormed(l) && WellFormed(r)
    ensures var l', r' := l.(next := rightIndex), r.(next := next, prev := leftIndex);
            WellFormed(l') && WellFormed(r') && Records(l') == Records(l) && Records(r') == Records(r)
                && Live(l') == Live(l)
  {
  }

  lemma LeftFilled(left: Page, all: seq<Data>, s: nat)
    requires s <= |all| && Needed(all[..s]) <= PAGE_SIZE - HEADER_SIZE
    ensures var f := AppendAll(Initialize(LEAF_KIND, ReadParent(left)), all[..s]);
            f.count == s && WellFormed(f.page) && Records(f.page) == all[..s] && f.page.prev == INVALID_INDEX
  {
    var blank := Initialize(LEAF_KIND, ReadParent(left));
    AppendAllKeeps(blank, all[..s]);
    assert Records(blank) + all[..s] == all[..s] && all[..s][..s] == all[..s];
  }

  lemma RightFilled(right: Page, all: seq<Data>, s: nat)
    requires s <= |all| && WellFormed(right) && right.cells == []
    ensures var f := AppendAll(right, all[s..]);
            && WellFormed(f.page) && Records(f.page) == all[s..s + f.count] && |Records(f.page)| == f.count
            && (f.count == |all| - s ==> Records(f.page) == all[s..])
            && (f.count == |all| - s <==> Needed(all[s..]) <= Contiguous(right))
  {
    AppendAllKeeps(right, all[s..]);
    var n := AppendAll(right, all[s..]).count;
    assert Records(right) + all[s..][..n] == all[s..s + n];
    assert all[s..|all|] == all[s..];
  }

  /** If neither an old record nor the new one takes more than a quarter of the old live bytes, there
      is a record for each side and the upper part fits an empty page. */
  lemma SmallRecordsFit(rs: seq<Data>, i: nat, d: Data)
    requires i <= |rs| && |d| > 0 && 4 * |d| <= Total(rs) && Needed(rs) <= PAGE_SIZE - HEADER_SIZE
    requires forall k :: 0 <= k < |rs| ==> 0 < |rs[k]| && 4 * |rs[k]| <= Total(rs)
    ensures var all := WithRecord(rs, i, d); var s := SplitIndex(all, SplitTotal(rs, i, d));
            0 < s < |all| && Needed(all[s..]) <= PAGE_SIZE - HEADER_SIZE
  {
    var all := WithRecord(rs, i, d);
    var s := SplitIndex(all, SplitTotal(rs, i, d));
    SplitIndexExists(rs, i, d);
    TotalWith(rs, i, d);
    TotalPrefix(all, s);
    assert all[s] == d || all[s] == rs[if s < i then s else s - 1];
    assert 4 * |all[s]| <= Total(rs);
    assert all[..0] == [];
    NeededSplit(all, s);
  }

  /** Under the same condition the split onto an initialised page is Ok and leaves both pages
      nonempty. */
  lemma SmallRecordsSplit(table: Table, left: Page, parent: Option<nat>, record: Record, leftIndex: nat,
                          rightIndex: nat, o: SplitOutcome)
    requires WellFormed(left) && Insertable(table, record) && Keyed(table, Records(left))
    requires 0 < |BytesOf(table, record)| && 4 * |BytesOf(table, record)| <= Live(left)
    requires forall k :: 0 <= k < |left.cells| ==> 0 < |Records(left)[k]| && 4 * |Records(left)[k]| <= Live(left)
    requires o == SplitLeaf(table, left, Initialize(LEAF_KIND, parent), record, leftIndex, rightIndex)
    ensures o.Split? && Records(o.left) != [] && Records(o.right) != []
  {
    var rs, d, right := Records(left), BytesOf(table, record), Initialize(LEAF_KIND, parent);
    var i := InsertPoint(Keys(table, rs), RecordKey(table, record));
    LiveFits(left);
    SmallRecordsFit(rs, i, d);
    var all := WithRecord(rs, i, d);
    var s := SplitIndex(all, SplitTotal(rs, i, d));
    var keys := Keys(table, rs)[..i] + [RecordKey(table, record)] + Keys(table, rs)[i..];
    SplitExactly(left, right, i, d, leftIndex, rightIndex, keys[s]);
  }

  /** Appending stops at the first record that does not fit. */
  lemma {:induction false} AppendAllStopsAt(p: Page, rs: seq<Data>, n: nat)
    requires WellFormed(p) && n < |rs| && Needed(rs[..n]) <= Contiguous(p) < Needed(rs[..n + 1])
    ensures AppendAll(p, rs).count == n && AppendAll(p, rs) == AppendAll(p, rs[..n])
  {
    var last := |rs| - 1;
    if n == last {
      AppendAllKeeps(p, rs[..n]);
      assert rs[..n + 1] == rs;
      AppendAllKeeps(p, rs);
    } else {
      assert rs[..last][..n] == rs[..n] && rs[..last][..n + 1] == rs[..n + 1];
      AppendAllStopsAt(p, rs[..last], n);
    }
  }

  lemma {:induction false} AppendCountGrows(p: Page, rs: seq<Data>, n: nat)
    requires n <= |rs|
    ensures AppendAll(p, rs[..n]).count <= AppendAll(p, rs).count
  {
    if n == |rs| {
      assert rs[..n] == rs;
    } else {
      var last := |rs| - 1;
      assert rs[..last][..n] == rs[..n];
      AppendCountGrows(p, rs[..last], n);
    }
  }

  /** What a split that breaks leaves: everything before the split point on the left, and on the right
      the records from there on up to the first that does not fit. */
  lemma BrokenStopsAt(left: Page, right: Page, all: seq<Data>, s: nat, leftIndex: nat, rightIndex: nat, separator: Key)
    requires s <= |all| && Needed(all[..s]) <= PAGE_SIZE - HEADER_SIZE && WellFormed(right) && right.cells == []
    requires SplitPages(left, right, all, s, leftIndex, rightIndex, separator).Broken?
    ensures var o := SplitPages(left, right, all, s, leftIndex, rightIndex, separator);
            var n := |Records(o.right)|;
            && s + n < |all| && Records(o.left) == all[..s] && Records(o.right) == all[s..s + n]
            && Needed(all[s..s + n]) <= Contiguous(right) < Needed(all[s..s + n + 1])
  {
    SplitOnto(left, right, all, s, leftIndex, rightIndex, separator);
    RightFilled(right, all, s);
    LeftFilled(left, all, s);
    StopsBefore(right, all[s..]);
    var n := AppendAll(right, all[s..]).count;
    assert all[s..][..n] == all[s..s + n] && all[s..][..n + 1] == all[s..s + n + 1];
  }

  lemma StopsBefore(p: Page, rs: seq<Data>)
    requires WellFormed(p) && AppendAll(p, rs).count < |rs|
    ensures Needed(rs[..AppendAll(p, rs).count]) <= Contiguous(p) < Needed(rs[..AppendAll(p, rs).count + 1])
  {
    var n := AppendAll(p, rs).count;
    AppendAllKeeps(p, rs);
    LiveFits(AppendAll(p, rs).page);
    AppendCountGrows(p, rs, n + 1);
    AppendAllKeeps(p, rs[..n + 1]);
  }

  /** Where a split cuts: the left page gets the records, in key order with the new one among them, up
      to half of the old bytes, or of old and new bytes when some old key is above the new one. */
  lemma SplitPoint(table: Table, left: Page, right: Page, record: Record, leftIndex: nat, rightIndex: nat,
                   o: SplitOutcome)
    requires WellFormed(left) && WellFormed(right) && Insertable(table, record)
    requires SortedLeaf(table, Records(left)) && !Present(Keys(table, Records(left)), RecordKey(table, record))
    requires |BytesOf(table, record)| > 0 && forall k :: 0 <= k < |left.cells| ==> |Records(left)[k]| > 0
    requires o == SplitLeaf(table, left, right, record, leftIndex, rightIndex) && o.Split?
    ensures var keys, key := Keys(table, Records(left)), RecordKey(table, record);
            var above := exists k :: 0 <= k < |keys| && KeyLess(key, keys[k]);
            var total := Live(left) + if above then |BytesOf(table, record)| else 0;
            Records(o.right) != [] && Live(o.left) <= total / 2 < Live(o.left) + |Records(o.right)[0]|
  {
    var rs, d, key := Records(left), BytesOf(table, record), RecordKey(table, record);
    var keys := Keys(table, rs);
    var i := InsertPoint(keys, key);
    var all := WithRecord(rs, i, d);
    var s := SplitIndex(all, SplitTotal(rs, i, d));
    SplitInHalves(table, left, right, record, leftIndex, rightIndex, i, all, s, o);
    PointAbove(keys, key);
    CutAt(all, SplitTotal(rs, i, d), s, Records(o.left), Records(o.right));
  }

  lemma CutAt(all: seq<Data>, total: nat, s: nat, a: seq<Data>, b: seq<Data>)
    requires s == SplitIndex(all, total) && s < |all| && a == all[..s] && b == all[s..]
    ensures b != [] && Total(a) <= total / 2 < Total(a) + |b[0]|
  {
    TotalPrefix(all, s);
  }

  lemma PointAbove(keys: seq<Key>, key: Key)
    ensures InsertPoint(keys, key) < |keys| <==> exists k :: 0 <= k < |keys| && KeyLess(key, keys[k])
  {
    forall k | 0 <= k < |keys| ensures Compare(key, keys[k]) == Less <==> KeyLess(key, keys[k]) {
      KeysOrdered(key, keys[k]);
    }
  }

  /** A first record of 8000 bytes sends everything right; with 300 bytes more to come, the right page
      takes the first record only and the left one is empty by then. */
  lemma UpperPartTooLong(left: Page, right: Page, big: Data, small: Data, d: Data, all: seq<Data>, leftIndex: nat,
                         rightIndex: nat, separator: Key)
    requires |big| == 8000 && |small| == 100 && |d| == 200
    requires Records(left) == [big, small] && right == Initialize(LEAF_KIND, None)
    requires all == WithRecord(Records(left), 1, d)
    ensures SplitIndex(all, SplitTotal(Records(left), 1, d)) == 0
    ensures var o := SplitPages(left, right, all, 0, leftIndex, rightIndex, separator);
            o.Broken? && Records(o.left) == [] && Records(o.right) == [big]
  {
    assert all == [big, d, small];
    TotalThree(big, d, small);
    TotalThree(big, small, []);
    assert all[..1] == [big] && all[..2] == [big, d] && all[0..] == all && all[..0] == [];
    RightTakesOne(right, big, all);
  }

  lemma RightTakesOne(right: Page, big: Data, all: seq<Data>)
    requires right == Initialize(LEAF_KIND, None) && |all| > 1 && all[..1] == [big]
    requires Needed(all[..1]) <= PAGE_SIZE - HEADER_SIZE < Needed(all[..2])
    ensures AppendAll(right, all).count == 1 && Records(AppendAll(right, all).page) == [big]
  {
    AppendAllStopsAt(right, all, 1);
    AppendAllKeeps(right, all[..1]);
    assert all[..1][..1] == [big];
  }

  lemma TotalThree(x: Data, y: Data, z: Data)
    ensures Total([x]) == |x| && Total([x, y]) == |x| + |y| && Total([x, y, z]) == |x| + |y| + |z|
    ensures Total([x, z]) == |x| + |z|
  {
    assert [x, y, z] == [x] + [y] + [z] && [x, y] == [x] + [y] && [x, z] == [x] + [z];
    TotalOne(x);
    TotalOne(y);
    TotalOne(z);
    TotalConcat([x], [y]);
    TotalConcat([x], [z]);
    TotalConcat([x] + [y], [z]);
  }

  // ---------------------------------------------------------------- order

  lemma PointIsLowerBound(keys: seq<Key>, key: Key)
    requires Ascending(keys) && !Present(keys, key)
    ensures InsertPoint(keys, key) == LowerBound(keys, key)
  {
    var i := InsertPoint(keys, key);
    LowerBoundSeparates(keys, key);
    forall j | 0 <= j < |keys| ensures Compare(key, keys[j]) == Compare(keys[j], key).Flip() {
      Flip(keys[j], key);
    }
    SeparatorIsLowerBound(keys, key, i);
  }

  lemma SortedSlice(table: Table, rs: seq<Data>, lo: nat, hi: nat)
    requires SortedLeaf(table, rs) && lo <= hi <= |rs|
    ensures SortedLeaf(table, rs[lo..hi]) && Keys(table, rs[lo..hi]) == Keys(table, rs)[lo..hi]
  {
    assert Keyed(table, rs[lo..hi]);
    assert Keys(table, rs[lo..hi]) == Keys(table, rs)[lo..hi];
  }

  /** The records of a sorted leaf with the new one at its place are sorted. */
  lemma WithRecordSorted(table: Table, rs: seq<Data>, record: Record)
    requires Insertable(table, record) && SortedLeaf(table, rs) && !Present(Keys(table, rs), RecordKey(table, record))
    ensures var keys, key := Keys(table, rs), RecordKey(table, record);
            var i := InsertPoint(keys, key);
            && i == LowerBound(keys, key)
            && SortedLeaf(table, WithRecord(rs, i, BytesOf(table, record)))
            && Keys(table, WithRecord(rs, i, BytesOf(table, record))) == keys[..i] + [key] + keys[i..]
  {
    var keys, key := Keys(table, rs), RecordKey(table, record);
    PointIsLowerBound(keys, key);
    KeyOfBytes(table, record);
    KeysInserted(table, rs, InsertPoint(keys, key), BytesOf(table, record));
    AscendingInsert(keys, key);
  }

  /** A successful split conserves the records: left followed by right are the old records with the
      new one in key order, both pages are sorted, the separator is the first key on the right, and
      it is above every left key and not above any right key. */
  lemma SplitConserves(table: Table, left: Page, right: Page, record: Record, leftIndex: nat, rightIndex: nat)
    requires WellFormed(left) && WellFormed(right) && Insertable(table, record)
    requires SortedLeaf(table, Records(left)) && !Present(Keys(table, Records(left)), RecordKey(table, record))
    requires |BytesOf(table, record)| > 0 && forall k :: 0 <= k < |left.cells| ==> |Records(left)[k]| > 0
    requires SplitLeaf(table, left, right, record, leftIndex, rightIndex).Split?
    ensures var o := SplitLeaf(table, left, right, record, leftIndex, rightIndex);
            var i := LowerBound(Keys(table, Records(left)), RecordKey(table, record));
            && Records(o.left) + Records(o.right) == WithRecord(Records(left), i, BytesOf(table, record))
            && SortedLeaf(table, Records(o.left)) && SortedLeaf(table, Records(o.right))
            && Records(o.right) != [] && o.separator == Keys(table, Records(o.right))[0]
            && (forall k :: 0 <= k < |Records(o.left)| ==>
                  Compare(Keys(table, Records(o.left))[k], o.separator) == Less)
            && (forall k :: 0 <= k < |Records(o.right)| ==>
                  Compare(o.separator, Keys(table, Records(o.right))[k]) != Greater)
  {
    var rs, d, key := Records(left), BytesOf(table, record), RecordKey(table, record);
    WithRecordSorted(table, rs, record);
    var i := InsertPoint(Keys(table, rs), key);
    var all := WithRecord(rs, i, d);
    var s := SplitIndex(all, SplitTotal(rs, i, d));
    var o := SplitLeaf(table, left, right, record, leftIndex, rightIndex);
    SplitInHalves(table, left, right, record, leftIndex, rightIndex, i, all, s, o);
    HalvesConserve(table, all, s, Records(o.left), Records(o.right), o.separator);
  }

  lemma SplitInHalves(table: Table, left: Page, right: Page, record: Record, leftIndex: nat, rightIndex: nat, i: nat,
                      all: seq<Data>, s: nat, o: SplitOutcome)
    requires WellFormed(left) && WellFormed(right) && Insertable(table, record) && Keyed(table, Records(left))
    requires |BytesOf(table, record)| > 0 && forall k :: 0 <= k < |left.cells| ==> |Records(left)[k]| > 0
    requires i == InsertPoint(Keys(table, Records(left)), RecordKey(table, record))
    requires all == WithRecord(Records(left), i, BytesOf(table, record))
    requires s == SplitIndex(all, SplitTotal(Records(left), i, BytesOf(table, record)))
    requires o == SplitLeaf(table, left, right, record, leftIndex, rightIndex) && o.Split?
    ensures s < |all| && Records(o.left) == all[..s] && Records(o.right) == all[s..]
    ensures var keys := Keys(table, Records(left));
            |keys| == |all| - 1 && o.separator == (keys[..i] + [RecordKey(table, record)] + keys[i..])[s]
  {
    SplitExactly(left, right, i, BytesOf(table, record), leftIndex, rightIndex, o.separator);
  }

  lemma HalvesConserve(table: Table, all: seq<Data>, s: nat, a: seq<Data>, b: seq<Data>, separator: Key)
    requires SortedLeaf(table, all) && s < |all| && a == all[..s] && b == all[s..] && separator == Keys(table, all)[s]
    ensures a + b == all && SortedLeaf(table, a) && SortedLeaf(table, b)
    ensures b != [] && separator == Keys(table, b)[0]
    ensures forall k :: 0 <= k < |a| ==> Compare(Keys(table, a)[k], separator) == Less
    ensures forall k :: 0 <= k < |b| ==> Compare(separator, Keys(table, b)[k]) != Greater
  {
    SortedHalves(table, all, s);
    assert all[..s] + all[s..] == all;
  }

  lemma SortedHalves(table: Table, all: seq<Data>, s: nat)
    requires SortedLeaf(table, all) && s < |all|
    ensures SortedLeaf(table, all[..s]) && SortedLeaf(table, all[s..])
    ensures Keys(table, all[s..])[0] == Keys(table, all)[s]
    ensures forall k :: 0 <= k < s ==> Compare(Keys(table, all[..s])[k], Keys(table, all)[s]) == Less
    ensures forall k :: 0 <= k < |all| - s ==> Compare(Keys(table, all)[s], Keys(table, all[s..])[k]) != Greater
  {
    var keys := Keys(table, all);
    assert all[0..s] == all[..s] && all[s..|all|] == all[s..];
    SortedSlice(table, all, 0, s);
    SortedSlice(table, all, s, |all|);
    forall k | 0 <= k < |all| - s ensures Compare(keys[s], Keys(table, all[s..])[k]) != Greater {
      assert Keys(table, all[s..])[k] == keys[s + k];
      if k == 0 { SelfEqual(keys[s]); }
    }
  }

  lemma SelfEqual(a: Key)
    ensures Compare(a, a) == Equal
  {
    Flip(a, a);
  }

  // ---------------------------------------------------------------- merging

  datatype MergeOutcome = Merged(left: Page, right: Page) | Unchanged(error: StorageError) | Torn(left: Page)

  /** Merging compares the right page's used space with the left page's contiguous free space, then
      appends record by record. */
  function MergePages(left: Page, right: Page): MergeOutcome {
    if PAGE_SIZE - FreeSpace(right) - HEADER_SIZE > Contiguous(left) then Unchanged(InsufficientSpaceForMerge)
    else
      var f := AppendAll(left, Records(right));
      if f.count < |Records(right)| then Torn(f.page)
      else Merged(f.page.(next := right.next), Initialize(INVALID_KIND, None))
  }

  /** Merging is all or nothing: it is refused exactly when the right records with their slots do not
      fit, and otherwise no append fails, the left page gets them all and the right page is emptied. */
  lemma MergeExactly(left: Page, right: Page)
    requires WellFormed(left) && WellFormed(right)
    ensures match MergePages(left, right)
            case Unchanged(e) => e == InsufficientSpaceForMerge && Needed(Records(right)) > Contiguous(left)
            case Torn(_) => false
            case Merged(l, r) =>
              && Needed(Records(right)) <= Contiguous(left)
              && WellFormed(l) && Records(l) == Records(left) + Records(right)
              && l.prev == left.prev && l.next == right.next
              && l.parent == left.parent && l.kind == left.kind && l.lsn == left.lsn
              && WellFormed(r) && Records(r) == [] && r.heap == PAGE_SIZE && r.kind == 0 && r.lsn == Zeros(8)
              && r.parent == INVALID_INDEX && LinkOf(r.prev) == None && LinkOf(r.next) == None
  {
    AppendAllKeeps(left, Records(right));
    assert Records(right)[..|right.cells|] == Records(right);
  }

  /** Two sorted leaves, the left one below the right one, merge to a sorted leaf. */
  lemma MergeKeepsSorted(table: Table, left: Page, right: Page)
    requires WellFormed(left) && WellFormed(right) && MergePages(left, right).Merged?
    requires SortedLeaf(table, Records(left)) && SortedLeaf(table, Records(right))
    requires left.cells != [] && right.cells != [] ==>
               Compare(Keys(table, Records(left))[|left.cells| - 1], Keys(table, Records(right))[0]) == Less
    ensures SortedLeaf(table, Records(MergePages(left, right).left))
  {
    MergeExactly(left, right);
    SortedConcat(table, Records(left), Records(right));
  }

  lemma SortedConcat(table: Table, a: seq<Data>, b: seq<Data>)
    requires SortedLeaf(table, a) && SortedLeaf(table, b)
    requires a != [] && b != [] ==> Compare(Keys(table, a)[|a| - 1], Keys(table, b)[0]) == Less
    ensures SortedLeaf(table, a + b)
  {
    var ka, kb := Keys(table, a), Keys(table, b);
    KeysConcat(table, a, b);
    forall i, j | 0 <= i < |ka| && 0 <= j < |kb| ensures Compare(ka[i], kb[j]) == Less {
      LessChain(ka, kb, i, j);
    }
    ConcatAscending(ka, kb);
  }

  lemma KeysConcat(table: Table, a: seq<Data>, b: seq<Data>)
    requires Keyed(table, a) && Keyed(table, b)
    ensures Keyed(table, a + b) && Keys(table, a + b) == Keys(table, a) + Keys(table, b)
  {
  }

  lemma LessChain(ka: seq<Key>, kb: seq<Key>, i: nat, j: nat)
    requires Ascending(ka) && Ascending(kb) && i < |ka| && j < |kb|
    requires Compare(ka[|ka| - 1], kb[0]) == Less
    ensures Compare(ka[i], kb[j]) == Less
  {
    var m := ka[|ka| - 1];
    if i < |ka| - 1 { Transitive(ka[i], m, kb[0]); }
    if j > 0 { Transitive(ka[i], kb[0], kb[j]); }
  }

  lemma ConcatAscending(ka: seq<Key>, kb: seq<Key>)
    requires Ascending(ka) && Ascending(kb)
    requires forall i, j :: 0 <= i < |ka| && 0 <= j < |kb| ==> Compare(ka[i], kb[j]) == Less
    ensures Ascending(ka + kb)
  {
    var k := ka + kb;
    forall i, j | 0 <= i < j < |k| ensures Compare(k[i], k[j]) == Less {
      if j < |ka| {
        assert Compare(ka[i], ka[j]) == Less;
      } else if i >= |ka| {
        assert Compare(kb[i - |ka|], kb[j - |ka|]) == Less;
      }
    }
  }
}
