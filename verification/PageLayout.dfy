/** What a slotted page means: its header fields and an ordered list of records, each record lying
    at some offset of the data heap. The operations here are the specification of the byte-level
    operations in SlottedPage.dfy. */
module PageLayout {
  import opened Bytes
  import opened Outcomes

  const PAGE_SIZE: int := 8192
  const HEADER_SIZE: int := 32
  const SLOT_SIZE: int := 4
  const INVALID_INDEX: int := 0xFFFF_FFFF

  datatype StorageError =
    | DuplicateKey
    | KeyNotFound
    | InsertRecordFailed
    | InsufficientSpaceForMerge
    | InvalidSlotIndex
    | NewRightSiblingNotEmpty
    | PageFull

  datatype Result<+T> = Ok(value: T) | Err(error: StorageError)

  datatype Cell = Cell(off: int, data: Data)

  datatype Page = Page(lsn: Data, parent: nat, prev: nat, next: nat, kind: Byte, heap: int, cells: seq<Cell>)

  predicate Apart(c: Cell, d: Cell) {
    c.off + |c.data| <= d.off || d.off + |d.data| <= c.off
  }

  predicate InHeap(c: Cell, heap: int) {
    heap <= c.off && c.off + |c.data| <= PAGE_SIZE
  }

  predicate WellFormed(p: Page) {
    && HEADER_SIZE + SLOT_SIZE * |p.cells| <= p.heap <= PAGE_SIZE
    && (forall i :: 0 <= i < |p.cells| ==> InHeap(p.cells[i], p.heap))
    && (forall i, j :: 0 <= i < j < |p.cells| ==> Apart(p.cells[i], p.cells[j]))
  }

  function DataOf(cells: seq<Cell>): (rs: seq<Data>)
    ensures |rs| == |cells|
    ensures forall i :: 0 <= i < |rs| ==> rs[i] == cells[i].data
  {
    seq(|cells|, i requires 0 <= i < |cells| => cells[i].data)
  }

  function Records(p: Page): seq<Data> { DataOf(p.cells) }

  function Live(p: Page): nat { Total(Records(p)) }

  function Contiguous(p: Page): int { p.heap - HEADER_SIZE - SLOT_SIZE * |p.cells| }

  function FreeSpace(p: Page): int { PAGE_SIZE - HEADER_SIZE - SLOT_SIZE * |p.cells| - Live(p) }

  // ---------------------------------------------------------------- operations

  /** The header keeps the low half of the 64-bit parent index only: the high half lies where the
      previous-sibling index is written next. No parent is stored as the largest 64-bit number. */
  function Initialize(kind: Byte, parent: Option<nat>): Page {
    Page(Zeros(8), match parent case None => INVALID_INDEX case Some(v) => v % U32_LIMIT,
         INVALID_INDEX, INVALID_INDEX, kind, PAGE_SIZE, [])
  }

  function Insert(p: Page, index: nat, record: Data): Result<Page> {
    if Contiguous(p) < |record| + SLOT_SIZE then Err(PageFull)
    else if index > |p.cells| then Err(InvalidSlotIndex)
    else Ok(WithCell(p, index, record))
  }

  /** How an optional sibling index is stored, and read back. */
  function RawLink(link: Option<nat>): nat {
    match link case None => INVALID_INDEX case Some(i) => i
  }

  function LinkOf(raw: nat): Option<nat> {
    if raw == INVALID_INDEX then None else Some(raw)
  }

  /** The record placed just below the heap, its slot at `index`. */
  function WithCell(p: Page, index: nat, record: Data): Page
    requires index <= |p.cells|
  {
    var off := p.heap - |record|;
    p.(heap := off, cells := p.cells[..index] + [Cell(off, record)] + p.cells[index..])
  }

  function Update(p: Page, index: nat, record: Data): Result<Page> {
    if index >= |p.cells| then Err(InvalidSlotIndex)
    else if |record| <= |p.cells[index].data| then
      Ok(p.(cells := p.cells[index := Cell(p.cells[index].off, record)]))
    else if |record| > Contiguous(p) then Err(PageFull)
    else
      var off := p.heap - |record|;
      Ok(p.(heap := off, cells := p.cells[index := Cell(off, record)]))
  }

  function Delete(p: Page, index: nat): Page {
    if index >= |p.cells| then p
    else p.(cells := p.cells[..index] + p.cells[index + 1..])
  }

  /** The records packed against the end of the page, the first one highest. */
  function Pack(rs: seq<Data>): (cells: seq<Cell>)
    ensures |cells| == |rs|
  {
    seq(|rs|, i requires 0 <= i < |rs| => Cell(PAGE_SIZE - Total(rs[..i + 1]), rs[i]))
  }

  function Compact(p: Page): Page {
    if FreeSpace(p) == Contiguous(p) then p
    else p.(heap := PAGE_SIZE - Live(p), cells := Pack(Records(p)))
  }

  // ---------------------------------------------------------------- lengths of disjoint records

  /** The addresses a cell occupies. */
  ghost function Span(lo: int, hi: int): (s: set<int>)
    ensures forall k :: k in s <==> lo <= k < hi
    ensures lo <= hi ==> |s| == hi - lo
    decreases hi - lo
  {
    if lo >= hi then {} else Span(lo, hi - 1) + {hi - 1}
  }

  lemma SubsetSize(a: set<int>, b: set<int>)
    requires a <= b
    ensures |a| <= |b|
  {
    assert b == a + (b - a);
    assert |b| == |a| + |b - a|;
  }

  ghost function Cover(cells: seq<Cell>): set<int> {
    if cells == [] then {}
    else
      var c := cells[|cells| - 1];
      Cover(cells[..|cells| - 1]) + Span(c.off, c.off + |c.data|)
  }

  lemma {:induction false} CoverWithin(cells: seq<Cell>, heap: int)
    requires forall i :: 0 <= i < |cells| ==> InHeap(cells[i], heap)
    ensures Cover(cells) <= Span(heap, PAGE_SIZE)
  {
    if cells != [] {
      CoverWithin(cells[..|cells| - 1], heap);
      assert InHeap(cells[|cells| - 1], heap);
    }
  }

  lemma {:induction false} CoverApart(cells: seq<Cell>, c: Cell)
    requires forall i :: 0 <= i < |cells| ==> Apart(cells[i], c)
    ensures Cover(cells) !! Span(c.off, c.off + |c.data|)
  {
    if cells != [] {
      CoverApart(cells[..|cells| - 1], c);
      assert Apart(cells[|cells| - 1], c);
    }
  }

  /** Disjoint cells occupy as many addresses as their lengths add up to. */
  lemma {:induction false} CoverSize(cells: seq<Cell>)
    requires forall i, j :: 0 <= i < j < |cells| ==> Apart(cells[i], cells[j])
    ensures |Cover(cells)| == Total(DataOf(cells))
  {
    if cells != [] {
      var n := |cells| - 1;
      CoverSize(cells[..n]);
      TotalOfCells(cells, n);
      assert forall i :: 0 <= i < n ==> Apart(cells[..n][i], cells[n]);
      CoverApart(cells[..n], cells[n]);
      DisjointSize(Cover(cells[..n]), Span(cells[n].off, cells[n].off + |cells[n].data|));
    }
  }

  lemma TotalOfCells(cells: seq<Cell>, n: nat)
    requires |cells| == n + 1
    ensures Total(DataOf(cells)) == Total(DataOf(cells[..n])) + |cells[n].data|
  {
    assert DataOf(cells)[..n] == DataOf(cells[..n]);
  }

  lemma DisjointSize(a: set<int>, b: set<int>)
    requires a !! b
    ensures |a + b| == |a| + |b|
  {
  }

  /** On a well-formed page the live bytes fit in the data heap, so the free space is never
      negative and never less than the contiguous free space. */
  lemma LiveFits(p: Page)
    requires WellFormed(p)
    ensures Live(p) <= PAGE_SIZE - p.heap
    ensures 0 <= Contiguous(p) <= FreeSpace(p)
  {
    CoverWithin(p.cells, p.heap);
    CoverSize(p.cells);
    SubsetSize(Cover(p.cells), Span(p.heap, PAGE_SIZE));
  }
}
