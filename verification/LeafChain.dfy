/** The chain of leaves that the sibling links form, and what splits, merges, inserts and updates do
    to it. */
module LeafChain {
  import opened Bytes
  import opened Outcomes
  import opened DataModel
  import opened PageLayout
  import opened LeafSpec
  import opened LeafSplit

  /** Pages by index, and the leaves in the order the next links visit them. */
  datatype Chain = Chain(pages: map<nat, Page>, order: seq<nat>)

  function NextOf(order: seq<nat>, k: nat): nat { if k + 1 < |order| then order[k + 1] else INVALID_INDEX }

  function PrevOf(order: seq<nat>, k: nat): nat
    requires k <= |order|
  {
    if k > 0 then order[k - 1] else INVALID_INDEX
  }

  predicate HasPages(c: Chain) {
    forall k :: 0 <= k < |c.order| ==> c.order[k] in c.pages
  }

  predicate LinkedAt(c: Chain, k: nat)
    requires k < |c.order| && c.order[k] in c.pages
  {
    && c.order[k] < INVALID_INDEX
    && WellFormed(c.pages[c.order[k]])
    && c.pages[c.order[k]].next == NextOf(c.order, k)
  }

  /** The next links lead from the first leaf through all others to the last, visiting none twice. */
  predicate Linked(c: Chain) {
    && HasPages(c)
    && (forall k :: 0 <= k < |c.order| ==> LinkedAt(c, k))
    && (forall j, k :: 0 <= j < k < |c.order| ==> c.order[j] != c.order[k])
  }

  predicate BackLinkedAt(c: Chain, k: nat)
    requires k < |c.order| && c.order[k] in c.pages
  {
    c.pages[c.order[k]].prev == PrevOf(c.order, k)
  }

  predicate BackLinked(c: Chain)
    requires HasPages(c)
  {
    forall k :: 0 <= k < |c.order| ==> BackLinkedAt(c, k)
  }

  function Leaves(c: Chain): (lists: seq<seq<Data>>)
    requires HasPages(c)
    ensures |lists| == |c.order|
  {
    seq(|c.order|, k requires 0 <= k < |c.order| => Records(c.pages[c.order[k]]))
  }

  function Concat(lists: seq<seq<Data>>): seq<Data> {
    if lists == [] then [] else Concat(lists[..|lists| - 1]) + lists[|lists| - 1]
  }

  /** All records along the chain. */
  function Content(c: Chain): seq<Data>
    requires HasPages(c)
  {
    Concat(Leaves(c))
  }

  // ---------------------------------------------------------------- concatenation

  lemma {:induction false} ConcatSum(a: seq<seq<Data>>, b: seq<seq<Data>>)
    ensures Concat(a + b) == Concat(a) + Concat(b)
  {
    if b == [] {
      assert a + b == a;
    } else {
      ConcatSum(a, b[..|b| - 1]);
      assert (a + b)[..|a + b| - 1] == a + b[..|b| - 1];
    }
  }

  lemma ConcatOne(a: seq<Data>)
    ensures Concat([a]) == a
  {
    assert [a][..0] == [];
  }

  lemma ConcatTwo(a: seq<Data>, b: seq<Data>)
    ensures Concat([a, b]) == a + b
  {
    assert [a, b] == [a] + [b];
    ConcatSum([a], [b]);
    ConcatOne(a);
    ConcatOne(b);
  }

  lemma ConcatThree(a: seq<seq<Data>>, b: seq<seq<Data>>, c: seq<seq<Data>>)
    ensures Concat(a + b + c) == Concat(a) + Concat(b) + Concat(c)
  {
    ConcatSum(a + b, c);
    ConcatSum(a, b);
  }

  /** The content around leaf `k`. */
  lemma ContentAround(lists: seq<seq<Data>>, k: nat)
    requires k < |lists|
    ensures Concat(lists) == Concat(lists[..k]) + lists[k] + Concat(lists[k + 1..])
  {
    OneInMiddle(lists, k);
    AroundOne(lists[..k], lists[k], lists[k + 1..]);
  }

  lemma OneInMiddle(lists: seq<seq<Data>>, k: nat)
    requires k < |lists|
    ensures lists == lists[..k] + [lists[k]] + lists[k + 1..]
  {
  }

  lemma AroundOne(a: seq<seq<Data>>, x: seq<Data>, b: seq<seq<Data>>)
    ensures Concat(a + [x] + b) == Concat(a) + x + Concat(b)
  {
    ConcatThree(a, [x], b);
    ConcatOne(x);
  }

  // ---------------------------------------------------------------- what a split does to the links

  function WithPrev(pages: map<nat, Page>, order: seq<nat>, k: nat, prev: nat): map<nat, Page>
    requires k < |order| ==> order[k] in pages
  {
    if k < |order| then pages[order[k] := pages[order[k]].(prev := prev)] else pages
  }

  /** The chain after leaf `k` was split onto page `newPage`. */
  function AfterSplit(c: Chain, k: nat, newPage: nat, l: Page, r: Page): Chain
    requires Linked(c) && k < |c.order|
  {
    Chain(WithPrev(c.pages[c.order[k] := l][newPage := r], c.order, k + 1, newPage),
          c.order[..k + 1] + [newPage] + c.order[k + 1..])
  }

  lemma SplitOrderAt(c: Chain, k: nat, newPage: nat, l: Page, r: Page, c': Chain, j: nat)
    requires Linked(c) && k < |c.order| && newPage !in c.order && c' == AfterSplit(c, k, newPage, l, r)
    requires j < |c'.order|
    ensures |c'.order| == |c.order| + 1
    ensures c'.order[j] == if j <= k then c.order[j] else if j == k + 1 then newPage else c.order[j - 1]
    ensures c'.order[j] in c'.pages
    ensures c'.pages[c'.order[j]] ==
            if j < k then c.pages[c.order[j]]
            else if j == k then l
            else if j == k + 1 then r
            else if j == k + 2 then c.pages[c.order[k + 1]].(prev := newPage)
            else c.pages[c.order[j - 1]]
  {
  }

  lemma SplitLinks(c: Chain, k: nat, newPage: nat, l: Page, r: Page, c': Chain)
    requires Linked(c) && k < |c.order| && newPage !in c.order && newPage < INVALID_INDEX
    requires c' == AfterSplit(c, k, newPage, l, r)
    requires WellFormed(l) && WellFormed(r) && l.next == newPage && r.next == c.pages[c.order[k]].next
    ensures Linked(c')
    ensures Leaves(c') == Leaves(c)[..k] + [Records(l), Records(r)] + Leaves(c)[k + 1..]
  {
    forall j | 0 <= j < |c'.order| ensures c'.order[j] in c'.pages && LinkedAt(c', j) {
      SplitLinkedAt(c, k, newPage, l, r, c', j);
    }
    forall i, j | 0 <= i < j < |c'.order| ensures c'.order[i] != c'.order[j] {
      SplitOrderAt(c, k, newPage, l, r, c', i);
      SplitOrderAt(c, k, newPage, l, r, c', j);
    }
    SplitLeaves(c, k, newPage, l, r, c', Leaves(c)[..k] + [Records(l), Records(r)] + Leaves(c)[k + 1..]);
  }

  lemma SplitLinkedAt(c: Chain, k: nat, newPage: nat, l: Page, r: Page, c': Chain, j: nat)
    requires Linked(c) && k < |c.order| && newPage !in c.order && newPage < INVALID_INDEX
    requires c' == AfterSplit(c, k, newPage, l, r) && j < |c'.order|
    requires WellFormed(l) && WellFormed(r) && l.next == newPage && r.next == c.pages[c.order[k]].next
    ensures c'.order[j] in c'.pages && LinkedAt(c', j)
  {
    SplitOrderAt(c, k, newPage, l, r, c', j);
    var i := if j <= k then j else j - 1;
    assert LinkedAt(c, i);
    if j == k + 1 { assert LinkedAt(c, k); }
    if j + 1 < |c'.order| { SplitOrderAt(c, k, newPage, l, r, c', j + 1); }
  }

  lemma SplitLeaves(c: Chain, k: nat, newPage: nat, l: Page, r: Page, c': Chain, lists: seq<seq<Data>>)
    requires Linked(c) && k < |c.order| && newPage !in c.order && c' == AfterSplit(c, k, newPage, l, r) && HasPages(c')
    requires lists == Leaves(c)[..k] + [Records(l), Records(r)] + Leaves(c)[k + 1..]
    ensures Leaves(c') == lists
  {
    forall j | 0 <= j < |lists| ensures j < |c'.order| && Leaves(c')[j] == lists[j] {
      SplitOrderAt(c, k, newPage, l, r, c', j);
    }
  }

  /** All back links but one are right after a split: the split leaf loses its own. */
  lemma SplitBackLinks(c: Chain, k: nat, newPage: nat, l: Page, r: Page, c': Chain)
    requires Linked(c) && Linked(c') && BackLinked(c) && k < |c.order| && newPage !in c.order
    requires c' == AfterSplit(c, k, newPage, l, r)
    requires l.prev == INVALID_INDEX && r.prev == c.order[k]
    ensures forall j :: 0 <= j < |c'.order| && j != k ==> BackLinkedAt(c', j)
    ensures BackLinkedAt(c', k) <==> k == 0
    ensures BackLinked(c') <==> LinkOf(c.pages[c.order[k]].prev) == None
  {
    forall j | 0 <= j < |c'.order| ensures BackLinkedAt(c', j) <==> j != k || k == 0 {
      SplitBackLinkAt(c, k, newPage, l, r, c', j);
    }
    assert BackLinkedAt(c, k);
    if k > 0 { assert LinkedAt(c, k - 1); }
    assert BackLinked(c') ==> BackLinkedAt(c', k);
  }

  lemma SplitBackLinkAt(c: Chain, k: nat, newPage: nat, l: Page, r: Page, c': Chain, j: nat)
    requires Linked(c) && BackLinked(c) && k < |c.order| && newPage !in c.order && HasPages(c')
    requires c' == AfterSplit(c, k, newPage, l, r) && j < |c'.order|
    requires l.prev == INVALID_INDEX && r.prev == c.order[k]
    ensures BackLinkedAt(c', j) <==> j != k || k == 0
  {
    SplitOrderAt(c, k, newPage, l, r, c', j);
    if j > 0 { SplitOrderAt(c, k, newPage, l, r, c', j - 1); }
    var i := if j <= k then j else j - 1;
    assert BackLinkedAt(c, i);
    if k > 0 { assert LinkedAt(c, k - 1); }
  }

  // ---------------------------------------------------------------- splitting a leaf of the chain

  /** Where leaf `k` starts in the content. */
  function Start(c: Chain, k: nat): nat
    requires HasPages(c) && k <= |c.order|
  {
    |Concat(Leaves(c)[..k])|
  }

  /** The place of the key in the content falls in leaf `k` or at one of its ends. */
  predicate BelongsIn(table: Table, c: Chain, k: nat, key: Key)
    requires HasPages(c) && Keyed(table, Content(c))
  {
    && k < |c.order|
    && Start(c, k) <= LowerBound(Keys(table, Content(c)), key) <= Start(c, k) + |Leaves(c)[k]|
  }

  predicate AllNonempty(rs: seq<Data>) { forall j :: 0 <= j < |rs| ==> |rs[j]| > 0 }

  /** The leaf's own keys and lower bound, from those of the whole content. */
  lemma LeafOfContent(table: Table, c: Chain, k: nat, key: Key, rs: seq<Data>, at: nat)
    requires HasPages(c) && SortedLeaf(table, Content(c)) && BelongsIn(table, c, k, key)
    requires rs == Leaves(c)[k] && at == LowerBound(Keys(table, Content(c)), key) - Start(c, k)
    ensures Content(c) == Concat(Leaves(c)[..k]) + rs + Concat(Leaves(c)[k + 1..])
    ensures SortedLeaf(table, rs) && at <= |rs| && LowerBound(Keys(table, rs), key) == at
    ensures !Present(Keys(table, Content(c)), key) ==> !Present(Keys(table, rs), key)
    ensures AllNonempty(Content(c)) ==> AllNonempty(rs)
  {
    ContentAround(Leaves(c), k);
    PartOfSorted(table, Content(c), Concat(Leaves(c)[..k]), rs, Concat(Leaves(c)[k + 1..]), key, at);
  }

  lemma PartOfSorted(table: Table, all: seq<Data>, a: seq<Data>, rs: seq<Data>, b: seq<Data>, key: Key, at: nat)
    requires all == a + rs + b && SortedLeaf(table, all) && at <= |rs| && LowerBound(Keys(table, all), key) == |a| + at
    ensures SortedLeaf(table, rs) && LowerBound(Keys(table, rs), key) == at
    ensures !Present(Keys(table, all), key) ==> !Present(Keys(table, rs), key)
    ensures AllNonempty(all) ==> AllNonempty(rs)
  {
    MiddleSlice(a, rs, b, all);
    SliceSearch(table, all, |a|, |a| + |rs|, rs, key, |a| + at, at);
  }

  lemma SliceSearch(table: Table, all: seq<Data>, lo: nat, hi: nat, rs: seq<Data>, key: Key, at: nat, i: nat)
    requires SortedLeaf(table, all) && lo <= hi <= |all| && all[lo..hi] == rs
    requires at == LowerBound(Keys(table, all), key) && lo <= at <= hi && i == at - lo
    ensures SortedLeaf(table, rs) && LowerBound(Keys(table, rs), key) == i
    ensures Present(Keys(table, rs), key) <==> Present(Keys(table, all), key) && at < hi
  {
    SortedSlice(table, all, lo, hi);
    PartSearch(Keys(table, all), key, lo, hi, Keys(table, rs), at, i);
  }

  lemma PartSearch(keys: seq<Key>, key: Key, lo: nat, hi: nat, part: seq<Key>, at: nat, i: nat)
    requires lo <= hi <= |keys| && part == keys[lo..hi]
    requires at == LowerBound(keys, key) && lo <= at <= hi && i == at - lo
    ensures LowerBound(part, key) == i
    ensures Present(part, key) <==> Present(keys, key) && at < hi
  {
    forall j | 0 <= j < i ensures Compare(part[j], key) == Less {
      SliceAt(keys, lo, hi, part, j, lo + j);
    }
    if i < |part| { SliceAt(keys, lo, hi, part, i, at); }
    SeparatorIsLowerBound(part, key, i);
  }

  lemma SliceAt<T>(s: seq<T>, lo: nat, hi: nat, part: seq<T>, j: nat, k: nat)
    requires lo <= hi <= |s| && part == s[lo..hi] && j < |part| && k == lo + j
    ensures part[j] == s[k]
  {
  }

  lemma MiddleSlice(a: seq<Data>, rs: seq<Data>, b: seq<Data>, all: seq<Data>)
    requires all == a + rs + b
    ensures |a| + |rs| <= |all| && all[|a|..|a| + |rs|] == rs
    ensures AllNonempty(all) ==> AllNonempty(rs)
  {
    forall j | 0 <= j < |rs| ensures rs[j] == all[|a| + j] {}
  }

  lemma InsertedInMiddle(a: seq<Data>, rs: seq<Data>, b: seq<Data>, at: nat, d: Data)
    requires |a| <= at <= |a| + |rs|
    ensures a + WithRecord(rs, at - |a|, d) + b == WithRecord(a + rs + b, at, d)
  {
  }

  /** What a split needs of the chain: page `newPage` is a well-formed page outside it, and the new key
      is absent and belongs in leaf `k`. */
  predicate CanSplit(table: Table, c: Chain, k: nat, newPage: nat, record: Record) {
    && Linked(c) && SortedLeaf(table, Content(c)) && AllNonempty(Content(c))
    && Insertable(table, record) && |BytesOf(table, record)| > 0
    && !Present(Keys(table, Content(c)), RecordKey(table, record)) && BelongsIn(table, c, k, RecordKey(table, record))
    && newPage in c.pages && newPage !in c.order && newPage < INVALID_INDEX && WellFormed(c.pages[newPage])
  }

  /** A split that is Ok adds exactly one page to the chain, next to the split one, and exactly one
      record to its content, in key order. */
  lemma SplitKeepsChain(table: Table, c: Chain, k: nat, newPage: nat, record: Record, o: SplitOutcome, c': Chain,
                        at: nat)
    requires CanSplit(table, c, k, newPage, record) && Keyed(table, Leaves(c)[k])
    requires o == SplitLeaf(table, c.pages[c.order[k]], c.pages[newPage], record, c.order[k], newPage)
    requires o.Split? && c' == AfterSplit(c, k, newPage, o.left, o.right)
    requires at == LowerBound(Keys(table, Content(c)), RecordKey(table, record))
    ensures Linked(c') && c'.order == c.order[..k + 1] + [newPage] + c.order[k + 1..]
    ensures at <= |Content(c)| && Content(c') == WithRecord(Content(c), at, BytesOf(table, record))
    ensures SortedLeaf(table, Content(c'))
    ensures BackLinked(c) ==>
              && (forall j :: 0 <= j < |c'.order| && j != k ==> BackLinkedAt(c', j))
              && (BackLinked(c') <==> LinkOf(c.pages[c.order[k]].prev) == None)
  {
    var left := c.pages[c.order[k]];
    SplitInChain(table, c, k, newPage, record, o, at - Start(c, k));
    SplitLinks(c, k, newPage, o.left, o.right, c');
    SplitContentIs(c, k, Records(o.left), Records(o.right), at, BytesOf(table, record), c');
    SortedWithRecord(table, Content(c), record, at);
    if BackLinked(c) { SplitBackLinks(c, k, newPage, o.left, o.right, c'); }
  }

  lemma SplitInChain(table: Table, c: Chain, k: nat, newPage: nat, record: Record, o: SplitOutcome, at: nat)
    requires CanSplit(table, c, k, newPage, record) && Keyed(table, Leaves(c)[k])
    requires o == SplitLeaf(table, c.pages[c.order[k]], c.pages[newPage], record, c.order[k], newPage) && o.Split?
    requires at == LowerBound(Keys(table, Content(c)), RecordKey(table, record)) - Start(c, k)
    ensures WellFormed(o.left) && WellFormed(o.right)
    ensures o.left.next == newPage && o.left.prev == INVALID_INDEX
    ensures o.right.next == c.pages[c.order[k]].next && o.right.prev == c.order[k]
    ensures at <= |Leaves(c)[k]|
    ensures Records(o.left) + Records(o.right) == WithRecord(Leaves(c)[k], at, BytesOf(table, record))
  {
    var left := c.pages[c.order[k]];
    LeafOfContent(table, c, k, RecordKey(table, record), Records(left), at);
    assert LinkedAt(c, k);
    SplitConserves(table, left, c.pages[newPage], record, c.order[k], newPage);
    SplitHeaders(table, left, c.pages[newPage], record, c.order[k], newPage, o);
  }

  lemma SplitHeaders(table: Table, left: Page, right: Page, record: Record, leftIndex: nat, rightIndex: nat,
                     o: SplitOutcome)
    requires WellFormed(left) && WellFormed(right) && Insertable(table, record) && SortedLeaf(table, Records(left))
    requires |BytesOf(table, record)| > 0 && AllNonempty(Records(left))
    requires o == SplitLeaf(table, left, right, record, leftIndex, rightIndex) && o.Split?
    ensures WellFormed(o.left) && WellFormed(o.right)
    ensures o.left.next == rightIndex && o.left.prev == INVALID_INDEX
    ensures o.right.next == left.next && o.right.prev == leftIndex
  {
    var i := InsertPoint(Keys(table, Records(left)), RecordKey(table, record));
    SplitExactly(left, right, i, BytesOf(table, record), leftIndex, rightIndex, o.separator);
  }

  lemma SplitContent(lists: seq<seq<Data>>, k: nat, l: seq<Data>, r: seq<Data>, at: nat, d: Data)
    requires k < |lists| && |Concat(lists[..k])| <= at <= |Concat(lists[..k])| + |lists[k]|
    requires l + r == WithRecord(lists[k], at - |Concat(lists[..k])|, d)
    ensures at <= |Concat(lists)|
    ensures Concat(lists[..k] + [l, r] + lists[k + 1..]) == WithRecord(Concat(lists), at, d)
  {
    ContentAround(lists, k);
    SplitParts(lists[..k], l, r, lists[k + 1..]);
    InsertedInMiddle(Concat(lists[..k]), lists[k], Concat(lists[k + 1..]), at, d);
  }

  lemma SplitContentIs(c: Chain, k: nat, l: seq<Data>, r: seq<Data>, at: nat, d: Data, c': Chain)
    requires HasPages(c) && HasPages(c') && k < |c.order| && Start(c, k) <= at <= Start(c, k) + |Leaves(c)[k]|
    requires l + r == WithRecord(Leaves(c)[k], at - Start(c, k), d)
    requires Leaves(c') == Leaves(c)[..k] + [l, r] + Leaves(c)[k + 1..]
    ensures at <= |Content(c)| && Content(c') == WithRecord(Content(c), at, d)
  {
    SplitContent(Leaves(c), k, l, r, at, d);
  }

  lemma SplitParts(a: seq<seq<Data>>, x: seq<Data>, y: seq<Data>, b: seq<seq<Data>>)
    ensures Concat(a + [x, y] + b) == Concat(a) + (x + y) + Concat(b)
  {
    ConcatThree(a, [x, y], b);
    ConcatTwo(x, y);
  }

  lemma SortedWithRecord(table: Table, rs: seq<Data>, record: Record, at: nat)
    requires Insertable(table, record) && SortedLeaf(table, rs)
    requires !Present(Keys(table, rs), RecordKey(table, record))
    requires at == LowerBound(Keys(table, rs), RecordKey(table, record))
    ensures SortedLeaf(table, WithRecord(rs, at, BytesOf(table, record)))
  {
    WithRecordSorted(table, rs, record);
  }

  // ---------------------------------------------------------------- merging two leaves of the chain

  /** The chain after the leaf that follows leaf `k` was merged into it. */
  function AfterMerge(c: Chain, k: nat, l: Page, r: Page): Chain
    requires Linked(c) && k + 1 < |c.order|
  {
    Chain(WithPrev(c.pages[c.order[k] := l][c.order[k + 1] := r], c.order, k + 2, c.order[k]),
          c.order[..k + 1] + c.order[k + 2..])
  }

  lemma MergeOrderAt(c: Chain, k: nat, l: Page, r: Page, c': Chain, j: nat)
    requires Linked(c) && k + 1 < |c.order| && c' == AfterMerge(c, k, l, r) && j < |c'.order|
    ensures |c'.order| == |c.order| - 1
    ensures c'.order[j] == if j <= k then c.order[j] else c.order[j + 1]
    ensures c'.order[j] in c'.pages
    ensures c'.pages[c'.order[j]] ==
            if j < k then c.pages[c.order[j]]
            else if j == k then l
            else if j == k + 1 then c.pages[c.order[k + 2]].(prev := c.order[k])
            else c.pages[c.order[j + 1]]
  {
  }

  lemma MergeLinkedAt(c: Chain, k: nat, l: Page, r: Page, c': Chain, j: nat)
    requires Linked(c) && k + 1 < |c.order| && c' == AfterMerge(c, k, l, r) && j < |c'.order|
    requires WellFormed(l) && l.next == c.pages[c.order[k + 1]].next
    ensures c'.order[j] in c'.pages && LinkedAt(c', j)
  {
    MergeOrderAt(c, k, l, r, c', j);
    assert LinkedAt(c, if j <= k then j else j + 1) && LinkedAt(c, k + 1);
    if j + 1 < |c'.order| { MergeOrderAt(c, k, l, r, c', j + 1); }
  }

  lemma MergeLinks(c: Chain, k: nat, l: Page, r: Page, c': Chain)
    requires Linked(c) && k + 1 < |c.order| && c' == AfterMerge(c, k, l, r)
    requires WellFormed(l) && l.next == c.pages[c.order[k + 1]].next
    ensures Linked(c') && c.order[k + 1] !in c'.order
  {
    forall j | 0 <= j < |c'.order| ensures c'.order[j] in c'.pages && LinkedAt(c', j) {
      MergeLinkedAt(c, k, l, r, c', j);
    }
  }

  lemma MergeBackLinks(c: Chain, k: nat, l: Page, r: Page, c': Chain)
    requires Linked(c) && BackLinked(c) && k + 1 < |c.order| && c' == AfterMerge(c, k, l, r) && Linked(c')
    requires l.prev == c.pages[c.order[k]].prev
    ensures BackLinked(c')
  {
    forall j | 0 <= j < |c'.order| ensures BackLinkedAt(c', j) {
      MergeBackLinkAt(c, k, l, r, c', j);
    }
  }

  lemma MergeBackLinkAt(c: Chain, k: nat, l: Page, r: Page, c': Chain, j: nat)
    requires Linked(c) && BackLinked(c) && k + 1 < |c.order| && c' == AfterMerge(c, k, l, r) && j < |c'.order|
    requires l.prev == c.pages[c.order[k]].prev
    ensures c'.order[j] in c'.pages && BackLinkedAt(c', j)
  {
    MergeOrderAt(c, k, l, r, c', j);
    if j > 0 { MergeOrderAt(c, k, l, r, c', j - 1); }
    assert BackLinkedAt(c, if j <= k then j else j + 1);
  }

  lemma MergeLeaves(c: Chain, k: nat, l: Page, r: Page, c': Chain, lists: seq<seq<Data>>)
    requires Linked(c) && k + 1 < |c.order| && c' == AfterMerge(c, k, l, r) && HasPages(c')
    requires lists == Leaves(c)[..k] + [Records(l)] + Leaves(c)[k + 2..]
    ensures Leaves(c') == lists
  {
    forall j | 0 <= j < |lists| ensures j < |c'.order| && Leaves(c')[j] == lists[j] {
      MergeOrderAt(c, k, l, r, c', j);
    }
  }

  lemma MergedContent(lists: seq<seq<Data>>, k: nat)
    requires k + 1 < |lists|
    ensures Concat(lists[..k] + [lists[k] + lists[k + 1]] + lists[k + 2..]) == Concat(lists)
  {
    TwoInMiddle(lists, k);
    MergedParts(lists[..k], lists[k], lists[k + 1], lists[k + 2..]);
  }

  lemma TwoInMiddle(lists: seq<seq<Data>>, k: nat)
    requires k + 1 < |lists|
    ensures lists == lists[..k] + [lists[k], lists[k + 1]] + lists[k + 2..]
  {
  }

  lemma MergedParts(a: seq<seq<Data>>, x: seq<Data>, y: seq<Data>, b: seq<seq<Data>>)
    ensures Concat(a + [x + y] + b) == Concat(a + [x, y] + b)
  {
    ConcatThree(a, [x, y], b);
    ConcatThree(a, [x + y], b);
    ConcatTwo(x, y);
    ConcatOne(x + y);
  }

  /** A merge that is Ok removes exactly one page, keeps the content and keeps all back links. */
  lemma MergeKeepsChain(c: Chain, k: nat, c': Chain)
    requires Linked(c) && k + 1 < |c.order|
    requires var o := MergePages(c.pages[c.order[k]], c.pages[c.order[k + 1]]);
             o.Merged? && c' == AfterMerge(c, k, o.left, o.right)
    ensures Linked(c') && c'.order == c.order[..k + 1] + c.order[k + 2..]
    ensures c.order[k + 1] !in c'.order
    ensures Content(c') == Content(c)
    ensures BackLinked(c) ==> BackLinked(c')
  {
    assert LinkedAt(c, k) && LinkedAt(c, k + 1);
    MergeExactly(c.pages[c.order[k]], c.pages[c.order[k + 1]]);
    var o := MergePages(c.pages[c.order[k]], c.pages[c.order[k + 1]]);
    MergeLinks(c, k, o.left, o.right, c');
    MergeLeaves(c, k, o.left, o.right, c', Leaves(c)[..k] + [Records(o.left)] + Leaves(c)[k + 2..]);
    MergedContent(Leaves(c), k);
    if BackLinked(c) { MergeBackLinks(c, k, o.left, o.right, c'); }
  }
}
