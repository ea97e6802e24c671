/** How a page value lies in its 8192 bytes, and which byte writes realise which page operation. */
module PageBytes {
  import opened Bytes
  import opened Outcomes
  import opened PageLayout
  import opened PageRuns

  const PARENT_OFFSET := 8
  const PREV_OFFSET := 12
  const NEXT_OFFSET := 16
  const COUNT_OFFSET := 20
  const HEAP_OFFSET := 22
  const KIND_OFFSET := 24

  function SlotOffset(i: nat): nat { HEADER_SIZE + SLOT_SIZE * i }

  /** Every slot lies on the page and points at bytes of the page. */
  predicate Readable(b: Data) {
    && |b| == PAGE_SIZE
    && SlotOffset(U16(b, COUNT_OFFSET)) <= PAGE_SIZE
    && forall i :: 0 <= i < U16(b, COUNT_OFFSET) ==> SlotInside(b, i)
  }

  predicate SlotInside(b: Data, i: nat)
    requires SlotOffset(i) + SLOT_SIZE <= |b|
  {
    U16(b, SlotOffset(i)) + U16(b, SlotOffset(i) + 2) <= PAGE_SIZE
  }

  function CellAt(b: Data, i: nat): Cell
    requires |b| == PAGE_SIZE && SlotOffset(i) + SLOT_SIZE <= |b| && SlotInside(b, i)
  {
    var off := U16(b, SlotOffset(i));
    Cell(off, b[off..off + U16(b, SlotOffset(i) + 2)])
  }

  function PageOf(b: Data): Page
    requires Readable(b)
  {
    Page(b[..PARENT_OFFSET], U32(b, PARENT_OFFSET), U32(b, PREV_OFFSET), U32(b, NEXT_OFFSET), b[KIND_OFFSET],
         U16(b, HEAP_OFFSET),
         seq(U16(b, COUNT_OFFSET), i requires 0 <= i < U16(b, COUNT_OFFSET) && Readable(b) => CellAt(b, i)))
  }

  predicate IsPage(b: Data) {
    Readable(b) && WellFormed(PageOf(b))
  }

  // ---------------------------------------------------------------- the same, field by field

  predicate HasHeader(b: Data, p: Page)
    requires |b| == PAGE_SIZE
  {
    && b[..PARENT_OFFSET] == p.lsn
    && U32(b, PARENT_OFFSET) == p.parent
    && U32(b, PREV_OFFSET) == p.prev
    && U32(b, NEXT_OFFSET) == p.next
    && U16(b, COUNT_OFFSET) == |p.cells|
    && U16(b, HEAP_OFFSET) == p.heap
    && b[KIND_OFFSET] == p.kind
  }

  predicate HasSlot(b: Data, i: nat, c: Cell)
    requires SlotOffset(i) + SLOT_SIZE <= |b|
  {
    U16(b, SlotOffset(i)) == c.off && U16(b, SlotOffset(i) + 2) == |c.data|
  }

  predicate HasData(b: Data, c: Cell) {
    0 <= c.off && c.off + |c.data| <= |b| && b[c.off..c.off + |c.data|] == c.data
  }

  predicate HasSlots(b: Data, cells: seq<Cell>)
    requires SlotOffset(|cells|) <= |b|
  {
    forall i :: 0 <= i < |cells| ==> HasSlot(b, i, cells[i])
  }

  predicate HasAllData(b: Data, cells: seq<Cell>) {
    forall i :: 0 <= i < |cells| ==> HasData(b, cells[i])
  }

  predicate Represents(b: Data, p: Page) {
    && |b| == PAGE_SIZE
    && WellFormed(p)
    && HasHeader(b, p)
    && HasSlots(b, p.cells)
    && HasAllData(b, p.cells)
  }

  /** A page value with its bytes is the value those bytes are read as. */
  lemma RepresentedIsRead(b: Data, p: Page)
    requires Represents(b, p)
    ensures IsPage(b) && PageOf(b) == p
  {
    forall i | 0 <= i < |p.cells| ensures SlotInside(b, i) && CellAt(b, i) == p.cells[i] {
      assert HasSlot(b, i, p.cells[i]) && HasData(b, p.cells[i]) && InHeap(p.cells[i], p.heap);
    }
    assert Readable(b);
    assert PageOf(b).cells == p.cells;
  }

  lemma ReadIsRepresented(b: Data)
    requires IsPage(b)
    ensures Represents(b, PageOf(b))
  {
    var p := PageOf(b);
    forall i | 0 <= i < |p.cells| ensures HasSlot(b, i, p.cells[i]) && HasData(b, p.cells[i]) {
      assert SlotInside(b, i) && p.cells[i] == CellAt(b, i);
    }
  }

  function TwoBytes(low: int, high: int): int { low + 0x100 * high }

  /** A page byte by byte: numbers have their least significant byte first, and a slot is the offset and
      the length of its record. */
  lemma PageFormat(b: Data, p: Page)
    requires IsPage(b) && p == PageOf(b)
    ensures |b| == 8192 && p.lsn == b[..8]
    ensures p.parent == TwoBytes(b[8], b[9]) + 0x1_0000 * TwoBytes(b[10], b[11])
    ensures p.prev == TwoBytes(b[12], b[13]) + 0x1_0000 * TwoBytes(b[14], b[15])
    ensures p.next == TwoBytes(b[16], b[17]) + 0x1_0000 * TwoBytes(b[18], b[19])
    ensures |p.cells| == TwoBytes(b[20], b[21]) && p.heap == TwoBytes(b[22], b[23]) && p.kind == b[24]
    ensures 32 + 4 * |p.cells| <= 8192
    ensures forall i :: 0 <= i < |p.cells| ==> SlotIs(b, 32 + 4 * i, p.cells[i])
  {
    forall i | 0 <= i < |p.cells| ensures SlotIs(b, 32 + 4 * i, p.cells[i]) {
      assert SlotInside(b, i) && p.cells[i] == CellAt(b, i);
    }
  }

  /** The slot at `at`, and the record it points at. */
  ghost predicate SlotIs(b: Data, at: nat, c: Cell)
    requires at + 4 <= |b|
  {
    var size := TwoBytes(b[at + 2], b[at + 3]);
    c.off == TwoBytes(b[at], b[at + 1]) && c.off + size <= |b| && c.data == b[c.off..c.off + size]
  }

  // ---------------------------------------------------------------- frames of one write

  lemma SlotKept(b: Data, o: nat, d: Data, r: Data, i: nat, c: Cell)
    requires Written(b, o, d, r) && SlotOffset(i) + SLOT_SIZE <= |b|
    requires o + |d| <= SlotOffset(i) || SlotOffset(i) + SLOT_SIZE <= o
    requires HasSlot(b, i, c)
    ensures HasSlot(r, i, c)
  {
  }

  lemma DataKept(b: Data, o: nat, d: Data, r: Data, c: Cell)
    requires Written(b, o, d, r) && HasData(b, c)
    requires o + |d| <= c.off || c.off + |c.data| <= o
    ensures HasData(r, c)
  {
    assert r[c.off..c.off + |c.data|] == b[c.off..c.off + |c.data|];
  }

  lemma DataAgrees(b: Data, r: Data, c: Cell)
    requires |b| == |r| && HasData(b, c)
    requires forall k {:trigger r[k]} :: c.off <= k < c.off + |c.data| ==> r[k] == b[k]
    ensures HasData(r, c)
  {
    assert r[c.off..c.off + |c.data|] == b[c.off..c.off + |c.data|];
  }

  /** `r2` is `r1` but for the slot `i`. */
  predicate SlotOnly(r1: Data, r2: Data, i: nat) {
    && |r1| == |r2|
    && forall k {:trigger r2[k]} :: 0 <= k < |r2| && !(SlotOffset(i) <= k < SlotOffset(i + 1)) ==> r2[k] == r1[k]
  }

  // ---------------------------------------------------------------- insertion

  /** `r` and `b` hold the same bytes from `lo` up to `hi`. */
  predicate Same(b: Data, r: Data, lo: int, hi: int) {
    |b| == |r| && 0 <= lo <= hi <= |b| && r[lo..hi] == b[lo..hi]
  }

  lemma U16Same(b: Data, r: Data, lo: int, hi: int, o: nat)
    requires Same(b, r, lo, hi) && lo <= o && o + 2 <= hi
    ensures U16(r, o) == U16(b, o)
  {
    assert r[lo..hi][o - lo] == r[o] && r[lo..hi][o + 1 - lo] == r[o + 1];
    assert b[lo..hi][o - lo] == b[o] && b[lo..hi][o + 1 - lo] == b[o + 1];
  }

  lemma DataSame(b: Data, r: Data, lo: int, hi: int, c: Cell)
    requires Same(b, r, lo, hi) && lo <= c.off && c.off + |c.data| <= hi && HasData(b, c)
    ensures HasData(r, c)
  {
    SliceOfSlice(r, lo, hi, c.off, c.off + |c.data|);
    SliceOfSlice(b, lo, hi, c.off, c.off + |c.data|);
  }

  lemma SliceOfSlice(b: Data, lo: nat, hi: nat, i: nat, j: nat)
    requires lo <= i <= j <= hi <= |b|
    ensures b[i..j] == b[lo..hi][i - lo..j - lo]
  {
    var x, y := b[i..j], b[lo..hi][i - lo..j - lo];
    forall k | 0 <= k < |x| ensures x[k] == y[k] {}
  }

  lemma HeaderSame(b: Data, r: Data, p: Page, heap: int, cells: seq<Cell>)
    requires |b| == PAGE_SIZE && HasHeader(b, p)
    requires Same(b, r, 0, COUNT_OFFSET) && Same(b, r, KIND_OFFSET, HEADER_SIZE)
    requires U16(r, COUNT_OFFSET) == |cells| && U16(r, HEAP_OFFSET) == heap
    ensures HasHeader(r, p.(heap := heap, cells := cells))
  {
    assert r[..COUNT_OFFSET][..PARENT_OFFSET] == r[..PARENT_OFFSET]
           && b[..COUNT_OFFSET][..PARENT_OFFSET] == b[..PARENT_OFFSET];
    U16Same(b, r, 0, COUNT_OFFSET, PARENT_OFFSET);
    U16Same(b, r, 0, COUNT_OFFSET, PARENT_OFFSET + 2);
    U16Same(b, r, 0, COUNT_OFFSET, PREV_OFFSET);
    U16Same(b, r, 0, COUNT_OFFSET, PREV_OFFSET + 2);
    U16Same(b, r, 0, COUNT_OFFSET, NEXT_OFFSET);
    U16Same(b, r, 0, COUNT_OFFSET, NEXT_OFFSET + 2);
    assert r[KIND_OFFSET..HEADER_SIZE][0] == r[KIND_OFFSET] && b[KIND_OFFSET..HEADER_SIZE][0] == b[KIND_OFFSET];
  }

  /** The six writes of an insertion, in order. */
  lemma InsertStepsWrite(b: Data, b1: Data, b2: Data, b3: Data, b4: Data, b5: Data, r: Data,
                         index: nat, record: Data, count: nat, off: nat)
    requires |b| == |b2| == PAGE_SIZE && index <= count && SlotOffset(count + 1) <= off && off + |record| <= PAGE_SIZE
    requires Written(b, off, record, b1)
    requires Written(b1, HEAP_OFFSET, LE16(off), b2)
    requires Written(b2, SlotOffset(index + 1), b2[SlotOffset(index)..SlotOffset(count)], b3)
    requires Written(b3, SlotOffset(index), LE16(off), b4)
    requires Written(b4, SlotOffset(index) + 2, LE16(|record|), b5)
    requires Written(b5, COUNT_OFFSET, LE16(count + 1), r)
    ensures InsertWrites(b, r, index, record, count, off + |record|)
  {
    forall k | 0 <= k < PAGE_SIZE ensures b3[k] == ShiftedByte(b, index, record, count, off, k) {
    }
    InsertedBytes(b, b3, b4, b5, r, index, record, count, off);
    InsertedRanges(b, r, index, record, count, off);
  }

  lemma InsertedBytes(b: Data, b3: Data, b4: Data, b5: Data, r: Data, index: nat, record: Data, count: nat, off: nat)
    requires |b| == |b3| == PAGE_SIZE && index <= count && SlotOffset(count + 1) <= off && off + |record| <= PAGE_SIZE
    requires forall k {:trigger b3[k]} :: 0 <= k < PAGE_SIZE ==> b3[k] == ShiftedByte(b, index, record, count, off, k)
    requires Written(b3, SlotOffset(index), LE16(off), b4)
    requires Written(b4, SlotOffset(index) + 2, LE16(|record|), b5)
    requires Written(b5, COUNT_OFFSET, LE16(count + 1), r)
    ensures forall k {:trigger r[k]} :: 0 <= k < PAGE_SIZE ==> r[k] == InsertedByte(b, index, record, count, off, k)
  {
  }

  /** Every byte of the page once record and heap start are written and the slots moved up. */
  ghost function ShiftedByte(b: Data, index: nat, record: Data, count: nat, off: nat, k: nat): Byte
    requires |b| == PAGE_SIZE && index <= count && SlotOffset(count + 1) <= off && off + |record| <= PAGE_SIZE
    requires k < PAGE_SIZE
  {
    if HEAP_OFFSET <= k < KIND_OFFSET then LE16(off)[k - HEAP_OFFSET]
    else if SlotOffset(index + 1) <= k < SlotOffset(count + 1) then b[k - SLOT_SIZE]
    else if off <= k < off + |record| then record[k - off]
    else b[k]
  }

  /** Every byte of the page after an insertion, by where it lies. */
  ghost function InsertedByte(b: Data, index: nat, record: Data, count: nat, off: nat, k: nat): Byte
    requires |b| == PAGE_SIZE && index <= count && SlotOffset(count + 1) <= off && off + |record| <= PAGE_SIZE
    requires k < PAGE_SIZE
  {
    if COUNT_OFFSET <= k < HEAP_OFFSET then LE16(count + 1)[k - COUNT_OFFSET]
    else if SlotOffset(index) <= k < SlotOffset(index) + 2 then LE16(off)[k - SlotOffset(index)]
    else if SlotOffset(index) + 2 <= k < SlotOffset(index + 1) then LE16(|record|)[k - SlotOffset(index) - 2]
    else ShiftedByte(b, index, record, count, off, k)
  }

  lemma InsertedRanges(b: Data, r: Data, index: nat, record: Data, count: nat, off: nat)
    requires |b| == |r| == PAGE_SIZE && index <= count && SlotOffset(count + 1) <= off && off + |record| <= PAGE_SIZE
    requires forall k {:trigger r[k]} :: 0 <= k < PAGE_SIZE ==> r[k] == InsertedByte(b, index, record, count, off, k)
    ensures InsertWrites(b, r, index, record, count, off + |record|)
  {
    var s, e := SlotOffset(index), SlotOffset(count);
    assert r[0..COUNT_OFFSET] == b[0..COUNT_OFFSET];
    assert r[KIND_OFFSET..s] == b[KIND_OFFSET..s];
    assert r[s + 4..e + 4] == b[s..e];
    assert r[off..off + |record|] == record;
    assert r[off + |record|..PAGE_SIZE] == b[off + |record|..PAGE_SIZE];
  }

  /** What an insertion leaves in each part of the page. */
  predicate InsertWrites(b: Data, r: Data, index: nat, record: Data, count: nat, heap: int) {
    && |b| == |r| == PAGE_SIZE && index <= count
    && SlotOffset(count + 1) <= heap - |record| && heap <= PAGE_SIZE
    && Same(b, r, 0, COUNT_OFFSET) && Same(b, r, KIND_OFFSET, SlotOffset(index))
    && U16(r, COUNT_OFFSET) == count + 1 && U16(r, HEAP_OFFSET) == heap - |record|
    && U16(r, SlotOffset(index)) == heap - |record| && U16(r, SlotOffset(index) + 2) == |record|
    && r[SlotOffset(index + 1)..SlotOffset(count + 1)] == b[SlotOffset(index)..SlotOffset(count)]
    && r[heap - |record|..heap] == record
    && Same(b, r, heap, PAGE_SIZE)
  }

  lemma KeptSlot(b: Data, r: Data, index: nat, record: Data, count: nat, heap: int, i: nat, c: Cell)
    requires InsertWrites(b, r, index, record, count, heap) && i < index && HasSlot(b, i, c)
    ensures HasSlot(r, i, c)
  {
    U16Same(b, r, KIND_OFFSET, SlotOffset(index), SlotOffset(i));
    U16Same(b, r, KIND_OFFSET, SlotOffset(index), SlotOffset(i) + 2);
  }

  lemma ShiftedSlot(b: Data, r: Data, index: nat, record: Data, count: nat, heap: int, i: nat, c: Cell)
    requires InsertWrites(b, r, index, record, count, heap) && index <= i < count && HasSlot(b, i, c)
    ensures HasSlot(r, i + 1, c)
  {
    var lo, hi := SlotOffset(index), SlotOffset(count);
    var k := SlotOffset(i) - lo;
    var r', b' := r[lo + 4..hi + 4], b[lo..hi];
    assert r'[k] == r[lo + 4 + k] && r'[k + 1] == r[lo + 4 + k + 1] && r'[k + 2] == r[lo + 4 + k + 2]
           && r'[k + 3] == r[lo + 4 + k + 3];
    assert b'[k] == b[lo + k] && b'[k + 1] == b[lo + k + 1] && b'[k + 2] == b[lo + k + 2] && b'[k + 3] == b[lo + k + 3];
  }

  lemma InsertedSlots(b: Data, r: Data, index: nat, record: Data, heap: int, cells: seq<Cell>, cells': seq<Cell>)
    requires InsertWrites(b, r, index, record, |cells|, heap)
    requires HasSlots(b, cells)
    requires cells' == cells[..index] + [Cell(heap - |record|, record)] + cells[index..]
    ensures HasSlots(r, cells')
  {
    forall i | 0 <= i < |cells'| ensures HasSlot(r, i, cells'[i]) {
      if i < index {
        KeptSlot(b, r, index, record, |cells|, heap, i, cells[i]);
      } else if i > index {
        ShiftedSlot(b, r, index, record, |cells|, heap, i - 1, cells[i - 1]);
      }
    }
  }

  lemma InsertedData(b: Data, r: Data, index: nat, record: Data, heap: int, cells: seq<Cell>, cells': seq<Cell>)
    requires InsertWrites(b, r, index, record, |cells|, heap)
    requires HasAllData(b, cells) && forall i :: 0 <= i < |cells| ==> InHeap(cells[i], heap)
    requires cells' == cells[..index] + [Cell(heap - |record|, record)] + cells[index..]
    ensures HasAllData(r, cells')
  {
    forall i | 0 <= i < |cells'| ensures HasData(r, cells'[i]) {
      if i != index {
        DataSame(b, r, heap, PAGE_SIZE, cells[if i < index then i else i - 1]);
      }
    }
  }

  /** The byte writes of an insertion leave the bytes of the inserted-into page value. */
  lemma InsertedRepresents(b: Data, r: Data, p: Page, index: nat, record: Data, q: Page)
    requires Represents(b, p) && Insert(p, index, record).Ok? && q == WithCell(p, index, record)
    requires InsertWrites(b, r, index, record, |p.cells|, p.heap)
    ensures Represents(r, q)
  {
    InsertedIsWellFormed(p, index, record, q);
    InsertedHeader(b, r, p, index, record, q.cells);
    InsertedCells(b, r, p, index, record, q.cells);
  }

  lemma InsertedCells(b: Data, r: Data, p: Page, index: nat, record: Data, cells: seq<Cell>)
    requires Represents(b, p) && InsertWrites(b, r, index, record, |p.cells|, p.heap) && index <= |p.cells|
    requires cells == p.cells[..index] + [Cell(p.heap - |record|, record)] + p.cells[index..]
    ensures HasSlots(r, cells) && HasAllData(r, cells)
  {
    InsertedSlots(b, r, index, record, p.heap, p.cells, cells);
    InsertedData(b, r, index, record, p.heap, p.cells, cells);
  }

  lemma InsertedIsWellFormed(p: Page, index: nat, record: Data, q: Page)
    requires WellFormed(p) && Insert(p, index, record) == Ok(q)
    ensures WellFormed(q)
  {
    InsertKeeps(p, index, record);
  }

  lemma InsertedHeader(b: Data, r: Data, p: Page, index: nat, record: Data, cells: seq<Cell>)
    requires |b| == PAGE_SIZE && HasHeader(b, p) && |cells| == |p.cells| + 1
    requires InsertWrites(b, r, index, record, |p.cells|, p.heap)
    ensures HasHeader(r, p.(heap := p.heap - |record|, cells := cells))
  {
    assert Same(b, r, KIND_OFFSET, HEADER_SIZE) by {
      var hi := SlotOffset(index);
      assert r[KIND_OFFSET..hi][..8] == r[KIND_OFFSET..HEADER_SIZE]
             && b[KIND_OFFSET..hi][..8] == b[KIND_OFFSET..HEADER_SIZE];
    }
    HeaderSame(b, r, p, p.heap - |record|, cells);
  }

  // ---------------------------------------------------------------- update

  /** What replacing one slot leaves outside the record bytes. */
  predicate UpdateWrites(b: Data, r: Data, index: nat, c: Cell, count: nat, heap: int) {
    && |b| == |r| == PAGE_SIZE && index < count && SlotOffset(count) <= PAGE_SIZE
    && Same(b, r, 0, COUNT_OFFSET) && Same(b, r, KIND_OFFSET, SlotOffset(index))
    && U16(r, COUNT_OFFSET) == count && U16(r, HEAP_OFFSET) == heap
    && HasSlot(r, index, c)
    && Same(b, r, SlotOffset(index + 1), SlotOffset(count))
  }

  lemma UpdatedSlots(b: Data, r: Data, index: nat, c: Cell, heap: int, cells: seq<Cell>)
    requires UpdateWrites(b, r, index, c, |cells|, heap)
    requires HasSlots(b, cells)
    ensures HasSlots(r, cells[index := c])
  {
    var cells' := cells[index := c];
    forall i | 0 <= i < |cells'| ensures HasSlot(r, i, cells'[i]) {
      if i != index {
        var lo := if i < index then KIND_OFFSET else SlotOffset(index + 1);
        var hi := if i < index then SlotOffset(index) else SlotOffset(|cells|);
        assert HasSlot(b, i, cells[i]);
        U16Same(b, r, lo, hi, SlotOffset(i));
        U16Same(b, r, lo, hi, SlotOffset(i) + 2);
      }
    }
  }

  lemma KindKept(b: Data, r: Data, index: nat)
    requires Same(b, r, KIND_OFFSET, SlotOffset(index))
    ensures Same(b, r, KIND_OFFSET, HEADER_SIZE)
  {
    var hi := SlotOffset(index);
    assert r[KIND_OFFSET..hi][..8] == r[KIND_OFFSET..HEADER_SIZE]
           && b[KIND_OFFSET..hi][..8] == b[KIND_OFFSET..HEADER_SIZE];
  }

  lemma UpdatedParts(b: Data, r: Data, p: Page, index: nat, c: Cell, heap: int)
    requires Represents(b, p)
    requires UpdateWrites(b, r, index, c, |p.cells|, heap)
    ensures HasHeader(r, p.(heap := heap, cells := p.cells[index := c]))
    ensures HasSlots(r, p.cells[index := c])
  {
    UpdatedSlots(b, r, index, c, heap, p.cells);
    KindKept(b, r, index);
    HeaderSame(b, r, p, heap, p.cells[index := c]);
  }

  /** Overwriting a record by one no longer leaves the bytes of every other record. */
  lemma OverwrittenData(b: Data, r: Data, p: Page, index: nat, record: Data)
    requires Represents(b, p) && index < |p.cells| && |record| <= |p.cells[index].data| && |r| == PAGE_SIZE
    requires Same(b, r, p.heap, p.cells[index].off) && Same(b, r, p.cells[index].off + |record|, PAGE_SIZE)
    requires r[p.cells[index].off..p.cells[index].off + |record|] == record
    ensures HasAllData(r, p.cells[index := Cell(p.cells[index].off, record)])
  {
    var old', new' := p.cells[index], Cell(p.cells[index].off, record);
    var cells' := p.cells[index := new'];
    forall i | 0 <= i < |cells'| ensures HasData(r, cells'[i]) {
      if i != index {
        var c := p.cells[i];
        assert InHeap(c, p.heap) && HasData(b, c);
        assert Apart(c, old') by {
          assert Apart(p.cells[if i < index then i else index], p.cells[if i < index then index else i]);
        }
        if c.off + |c.data| <= old'.off {
          DataSame(b, r, p.heap, old'.off, c);
        } else {
          DataSame(b, r, old'.off + |record|, PAGE_SIZE, c);
        }
      }
    }
  }

  lemma RelocatedData(b: Data, r: Data, heap: int, cells: seq<Cell>, index: nat, record: Data)
    requires HasAllData(b, cells) && index < |cells| && |b| == |r| == PAGE_SIZE
    requires forall i :: 0 <= i < |cells| ==> InHeap(cells[i], heap)
    requires |record| <= heap && Same(b, r, heap, PAGE_SIZE) && r[heap - |record|..heap] == record
    ensures HasAllData(r, cells[index := Cell(heap - |record|, record)])
  {
    var cells' := cells[index := Cell(heap - |record|, record)];
    forall i | 0 <= i < |cells'| ensures HasData(r, cells'[i]) {
      if i != index { DataSame(b, r, heap, PAGE_SIZE, cells[i]); }
    }
  }

  lemma OverwrittenRepresents(b: Data, b1: Data, r: Data, p: Page, index: nat, record: Data, q: Page)
    requires Represents(b, p) && index < |p.cells| && |record| <= |p.cells[index].data|
    requires Written(b, p.cells[index].off, record, b1)
    requires SlotOnly(b1, r, index)
    requires HasSlot(r, index, Cell(p.cells[index].off, record))
    requires q == p.(cells := p.cells[index := Cell(p.cells[index].off, record)])
    ensures Represents(r, q)
  {
    var off := p.cells[index].off;
    assert InHeap(p.cells[index], p.heap);
    assert r[0..COUNT_OFFSET] == b[0..COUNT_OFFSET];
    assert r[KIND_OFFSET..SlotOffset(index)] == b[KIND_OFFSET..SlotOffset(index)];
    assert r[SlotOffset(index + 1)..SlotOffset(|p.cells|)] == b[SlotOffset(index + 1)..SlotOffset(|p.cells|)];
    assert r[p.heap..off] == b[p.heap..off];
    assert r[off + |record|..PAGE_SIZE] == b[off + |record|..PAGE_SIZE];
    assert r[off..off + |record|] == record;
    UpdatedParts(b, r, p, index, q.cells[index], p.heap);
    OverwrittenData(b, r, p, index, record);
    ReplacedApart(p, index, q.cells[index], p.heap);
  }

  lemma RelocatedRepresents(b: Data, b1: Data, b2: Data, r: Data, p: Page, index: nat, record: Data, q: Page)
    requires Represents(b, p) && index < |p.cells| && |record| <= Contiguous(p)
    requires Written(b, p.heap - |record|, record, b1)
    requires SlotOnly(b1, b2, index)
    requires HasSlot(b2, index, Cell(p.heap - |record|, record))
    requires Written(b2, HEAP_OFFSET, LE16(p.heap - |record|), r)
    requires q == p.(heap := p.heap - |record|, cells := p.cells[index := Cell(p.heap - |record|, record)])
    ensures Represents(r, q)
  {
    assert r[0..COUNT_OFFSET] == b[0..COUNT_OFFSET];
    assert r[KIND_OFFSET..SlotOffset(index)] == b[KIND_OFFSET..SlotOffset(index)];
    assert r[SlotOffset(index + 1)..SlotOffset(|p.cells|)] == b[SlotOffset(index + 1)..SlotOffset(|p.cells|)];
    assert r[p.heap..PAGE_SIZE] == b[p.heap..PAGE_SIZE];
    assert r[q.heap..p.heap] == record;
    UpdatedParts(b, r, p, index, q.cells[index], q.heap);
    RelocatedData(b, r, p.heap, p.cells, index, record);
    ReplacedApart(p, index, q.cells[index], q.heap);
  }

  // ---------------------------------------------------------------- deletion

  predicate DeleteWrites(b: Data, r: Data, index: nat, count: nat, heap: int) {
    && |b| == |r| == PAGE_SIZE && index < count && SlotOffset(count) <= heap <= PAGE_SIZE
    && Same(b, r, 0, COUNT_OFFSET) && Same(b, r, KIND_OFFSET, SlotOffset(index))
    && U16(r, COUNT_OFFSET) == count - 1 && U16(r, HEAP_OFFSET) == heap
    && r[SlotOffset(index)..SlotOffset(count - 1)] == b[SlotOffset(index + 1)..SlotOffset(count)]
    && Same(b, r, heap, PAGE_SIZE)
  }

  lemma DroppedSlots(b: Data, r: Data, index: nat, heap: int, cells: seq<Cell>)
    requires DeleteWrites(b, r, index, |cells|, heap) && HasSlots(b, cells)
    ensures HasSlots(r, cells[..index] + cells[index + 1..])
  {
    var cells' := cells[..index] + cells[index + 1..];
    forall i | 0 <= i < |cells'| ensures HasSlot(r, i, cells'[i]) {
      if i < index {
        assert HasSlot(b, i, cells[i]);
        U16Same(b, r, KIND_OFFSET, SlotOffset(index), SlotOffset(i));
        U16Same(b, r, KIND_OFFSET, SlotOffset(index), SlotOffset(i) + 2);
      } else {
        assert HasSlot(b, i + 1, cells[i + 1]);
        var lo, hi := SlotOffset(index), SlotOffset(|cells| - 1);
        var k := SlotOffset(i) - lo;
        var r', b' := r[lo..hi], b[lo + 4..hi + 4];
        assert r'[k] == r[lo + k] && r'[k + 1] == r[lo + k + 1] && r'[k + 2] == r[lo + k + 2]
               && r'[k + 3] == r[lo + k + 3];
        assert b'[k] == b[lo + 4 + k] && b'[k + 1] == b[lo + 4 + k + 1] && b'[k + 2] == b[lo + 4 + k + 2]
               && b'[k + 3] == b[lo + 4 + k + 3];
      }
    }
  }

  lemma KeptData(b: Data, r: Data, heap: int, cells: seq<Cell>)
    requires HasAllData(b, cells) && Same(b, r, heap, PAGE_SIZE) && |b| == PAGE_SIZE
    requires forall i :: 0 <= i < |cells| ==> InHeap(cells[i], heap)
    ensures HasAllData(r, cells)
  {
    forall i | 0 <= i < |cells| ensures HasData(r, cells[i]) {
      DataSame(b, r, heap, PAGE_SIZE, cells[i]);
    }
  }

  lemma DeletedParts(b: Data, r: Data, p: Page, index: nat)
    requires Represents(b, p) && index < |p.cells|
    requires DeleteWrites(b, r, index, |p.cells|, p.heap)
    ensures HasHeader(r, Delete(p, index)) && HasSlots(r, Delete(p, index).cells)
    ensures HasAllData(r, Delete(p, index).cells)
  {
    KindKept(b, r, index);
    HeaderSame(b, r, p, p.heap, Delete(p, index).cells);
    DroppedSlots(b, r, index, p.heap, p.cells);
    KeptData(b, r, p.heap, p.cells);
  }

  lemma DeletedRepresents(b: Data, b1: Data, r: Data, p: Page, index: nat)
    requires Represents(b, p) && index < |p.cells|
    requires Written(b, SlotOffset(index), b[SlotOffset(index + 1)..SlotOffset(|p.cells|)], b1)
    requires Written(b1, COUNT_OFFSET, LE16(|p.cells| - 1), r)
    ensures Represents(r, Delete(p, index))
  {
    assert r[0..COUNT_OFFSET] == b[0..COUNT_OFFSET];
    assert r[KIND_OFFSET..SlotOffset(index)] == b[KIND_OFFSET..SlotOffset(index)];
    assert r[SlotOffset(index)..SlotOffset(|p.cells| - 1)] == b[SlotOffset(index + 1)..SlotOffset(|p.cells|)];
    assert r[p.heap..PAGE_SIZE] == b[p.heap..PAGE_SIZE];
    DeletedParts(b, r, p, index);
    DeleteKeeps(p, index);
  }

  // ---------------------------------------------------------------- compaction

  /** Half-way through repacking: slots before `i` and their records are packed, the header and the
      slots from `i` on are as they were. */
  ghost predicate Repacked(b: Data, r: Data, p: Page, i: nat) {
    && |b| == |r| == PAGE_SIZE && i <= |p.cells| && SlotOffset(|p.cells|) <= PAGE_SIZE - Live(p)
    && Same(b, r, 0, HEADER_SIZE)
    && (forall j :: 0 <= j < i ==> HasSlot(r, j, Pack(Records(p))[j]))
    && (forall j :: i <= j < |p.cells| ==> HasSlot(r, j, p.cells[j]))
    && (forall j :: 0 <= j < i ==> HasData(r, Pack(Records(p))[j]))
  }

  /** A record is written at `off`, then slot `i`. */
  predicate Moves(r: Data, r1: Data, r2: Data, record: Data, i: nat, off: nat) {
    && |r| == PAGE_SIZE && SlotOffset(i + 1) <= off && off + |record| <= PAGE_SIZE
    && Written(r, off, record, r1) && SlotOnly(r1, r2, i)
  }

  /** Moving record `i` to its packed place writes above the slot array and below the records
      already packed. */
  lemma RepackStep(b: Data, r: Data, r1: Data, r2: Data, p: Page, i: nat, off: nat)
    requires Repacked(b, r, p, i) && i < |p.cells|
    requires off == PAGE_SIZE - Total(Records(p)[..i + 1])
    requires Written(r, off, Records(p)[i], r1) && SlotOnly(r1, r2, i)
    requires HasSlot(r2, i, Cell(off, Records(p)[i]))
    ensures off >= SlotOffset(|p.cells|)
    ensures Repacked(b, r2, p, i + 1)
  {
    TotalPrefix(Records(p), i);
    RepackHeader(b, r, r1, r2, Records(p)[i], i, off);
    RepackPacked(r, r1, r2, Records(p), Pack(Records(p)), i, off);
    RepackRest(r, r1, r2, Records(p)[i], p.cells, i, off);
  }

  lemma RepackHeader(b: Data, r: Data, r1: Data, r2: Data, record: Data, i: nat, off: nat)
    requires Same(b, r, 0, HEADER_SIZE) && Moves(r, r1, r2, record, i, off)
    ensures Same(b, r2, 0, HEADER_SIZE)
  {
    assert r2[0..HEADER_SIZE] == r[0..HEADER_SIZE];
  }

  lemma RepackRest(r: Data, r1: Data, r2: Data, record: Data, cells: seq<Cell>, i: nat, off: nat)
    requires Moves(r, r1, r2, record, i, off) && SlotOffset(|cells|) <= off
    requires forall j :: i <= j < |cells| ==> HasSlot(r, j, cells[j])
    ensures forall j :: i + 1 <= j < |cells| ==> HasSlot(r2, j, cells[j])
  {
    forall j | i + 1 <= j < |cells| ensures HasSlot(r2, j, cells[j]) {
      assert HasSlot(r, j, cells[j]);
    }
  }

  lemma RepackPacked(r: Data, r1: Data, r2: Data, rs: seq<Data>, packed: seq<Cell>, i: nat, off: nat)
    requires i < |rs| && packed == Pack(rs) && Moves(r, r1, r2, rs[i], i, off)
    requires SlotOffset(|rs|) <= off == PAGE_SIZE - Total(rs[..i + 1]) && HasSlot(r2, i, Cell(off, rs[i]))
    requires forall j :: 0 <= j < i ==> HasSlot(r, j, packed[j])
    requires forall j :: 0 <= j < i ==> HasData(r, packed[j])
    ensures forall j :: 0 <= j < i + 1 ==> HasSlot(r2, j, packed[j])
    ensures forall j :: 0 <= j < i + 1 ==> HasData(r2, packed[j])
  {
    RepackMoved(r, r1, r2, rs[i], i, off);
    forall j | 0 <= j < i + 1 ensures HasSlot(r2, j, packed[j]) && HasData(r2, packed[j]) {
      if j < i { RepackKept(r, r1, r2, rs, i, j, off); }
    }
  }

  lemma RepackKept(r: Data, r1: Data, r2: Data, rs: seq<Data>, i: nat, j: nat, off: nat)
    requires j < i < |rs| && Moves(r, r1, r2, rs[i], i, off)
    requires SlotOffset(|rs|) <= off == PAGE_SIZE - Total(rs[..i + 1])
    requires HasSlot(r, j, Pack(rs)[j]) && HasData(r, Pack(rs)[j])
    ensures HasSlot(r2, j, Pack(rs)[j]) && HasData(r2, Pack(rs)[j])
  {
    TotalPrefix(rs, i);
    PrefixTotals(rs, j + 1, i);
    DataAgrees(r, r2, Pack(rs)[j]);
  }

  lemma RepackMoved(r: Data, r1: Data, r2: Data, record: Data, i: nat, off: nat)
    requires Moves(r, r1, r2, record, i, off)
    ensures HasData(r2, Cell(off, record))
  {
    assert r2[off..off + |record|] == record;
  }

  lemma CompactedHeader(b: Data, r: Data, r1: Data, r2: Data, p: Page, q: Page)
    requires |b| == PAGE_SIZE && HasHeader(b, p) && Same(b, r, 0, HEADER_SIZE)
    requires |q.cells| == |p.cells| && 0 <= q.heap < U16_LIMIT && q == p.(heap := q.heap, cells := q.cells)
    requires exists n, z :: n >= HEADER_SIZE && Written(r, n, z, r1)
    requires Written(r1, HEAP_OFFSET, LE16(q.heap), r2)
    ensures HasHeader(r2, q)
  {
    assert r2[0..COUNT_OFFSET] == r[0..HEADER_SIZE][0..COUNT_OFFSET]
           && b[0..COUNT_OFFSET] == b[0..HEADER_SIZE][0..COUNT_OFFSET];
    assert r2[KIND_OFFSET..HEADER_SIZE] == r[0..HEADER_SIZE][KIND_OFFSET..]
           && b[KIND_OFFSET..HEADER_SIZE] == b[0..HEADER_SIZE][KIND_OFFSET..];
    U16Same(b, r, 0, HEADER_SIZE, COUNT_OFFSET);
    HeaderSame(b, r2, p, q.heap, q.cells);
  }

  lemma CompactedRepresents(b: Data, r: Data, r1: Data, r2: Data, p: Page, q: Page)
    requires |b| == PAGE_SIZE && HasHeader(b, p) && WellFormed(q) && Repacked(b, r, p, |p.cells|)
    requires Written(r, SlotOffset(|p.cells|), Zeros(FreeSpace(p)), r1)
    requires Written(r1, HEAP_OFFSET, LE16(PAGE_SIZE - Live(p)), r2)
    requires q == p.(heap := PAGE_SIZE - Live(p), cells := Pack(Records(p)))
    ensures Represents(r2, q)
  {
    CompactedHeader(b, r, r1, r2, p, q);
    forall j | 0 <= j < |q.cells| ensures HasSlot(r2, j, q.cells[j]) && HasData(r2, q.cells[j]) {
      assert HasSlot(r, j, q.cells[j]) && HasData(r, q.cells[j]) && InHeap(q.cells[j], q.heap);
      CompactedCell(r, r1, r2, |p.cells|, FreeSpace(p), q.heap, q.cells[j], j);
    }
  }

  lemma CompactedCell(r: Data, r1: Data, r2: Data, count: nat, free: nat, heap: nat, c: Cell, j: nat)
    requires |r| == PAGE_SIZE && j < count && SlotOffset(count) + free == heap <= PAGE_SIZE
    requires Written(r, SlotOffset(count), Zeros(free), r1) && Written(r1, HEAP_OFFSET, LE16(heap), r2)
    requires HasSlot(r, j, c) && HasData(r, c) && InHeap(c, heap)
    ensures HasSlot(r2, j, c) && HasData(r2, c)
  {
    DataAgrees(r, r2, c);
  }

  // ---------------------------------------------------------------- sibling links

  /** Writing a sibling index leaves slots and records. */
  lemma LinkWritten(b: Data, p: Page, o: nat, v: nat, r: Data, q: Page)
    requires Represents(b, p) && v < U32_LIMIT && Written(b, o, LE32(v), r)
    requires (o == PREV_OFFSET && q == p.(prev := v)) || (o == NEXT_OFFSET && q == p.(next := v))
    ensures Represents(r, q)
  {
    assert HasHeader(r, q) by {
      assert r[..PARENT_OFFSET] == b[..PARENT_OFFSET];
      assert r[o] == LE32(v)[0] && r[o + 1] == LE32(v)[1] && r[o + 2] == LE32(v)[2] && r[o + 3] == LE32(v)[3];
    }
    forall i | 0 <= i < |p.cells| ensures HasSlot(r, i, p.cells[i]) && HasData(r, p.cells[i]) {
      assert HasSlot(b, i, p.cells[i]) && HasData(b, p.cells[i]) && InHeap(p.cells[i], p.heap);
      SlotKept(b, o, LE32(v), r, i, p.cells[i]);
      DataKept(b, o, LE32(v), r, p.cells[i]);
    }
  }

  /** The header bytes `initialize` writes. */
  ghost predicate EmptyHeader(r: Data, kind: Byte, parentIndex: nat)
    requires |r| == PAGE_SIZE && parentIndex < U64_LIMIT
  {
    && (forall k :: 0 <= k < 8 ==> r[k] == 0)
    && (forall k :: 8 <= k < 12 ==> r[k] == LE64(parentIndex)[k - 8])
    && (forall k :: 12 <= k < 16 ==> r[k] == LE32(INVALID_INDEX)[k - 12])
    && (forall k :: 16 <= k < 20 ==> r[k] == LE32(INVALID_INDEX)[k - 16])
    && (forall k :: 20 <= k < 22 ==> r[k] == LE16(0)[k - 20])
    && (forall k :: 22 <= k < 24 ==> r[k] == LE16(PAGE_SIZE)[k - 22])
    && r[KIND_OFFSET] == kind
  }

  /** They are those of an empty page. */
  lemma InitializedRepresents(r: Data, kind: Byte, parent: Option<nat>, parentIndex: nat)
    requires |r| == PAGE_SIZE && parentIndex < U64_LIMIT
    requires parentIndex % U32_LIMIT == Initialize(kind, parent).parent
    requires EmptyHeader(r, kind, parentIndex)
    ensures Represents(r, Initialize(kind, parent))
  {
    assert r[..PARENT_OFFSET] == Zeros(8);
    assert U32(r, PARENT_OFFSET) == U32(LE64(parentIndex), 0) == parentIndex % U32_LIMIT;
    assert U32(r, PREV_OFFSET) == U32(LE32(INVALID_INDEX), 0);
    assert U32(r, NEXT_OFFSET) == U32(LE32(INVALID_INDEX), 0);
    assert U16(r, COUNT_OFFSET) == U16(LE16(0), 0);
    assert U16(r, HEAP_OFFSET) == U16(LE16(PAGE_SIZE), 0);
  }
}
