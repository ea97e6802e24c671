/** The view of one 8192-byte page frame that changes it in place. Every method is proved to turn
    the bytes of a page value into the bytes of the value PageLayout.dfy computes. */
module SlottedPage {
  import opened Bytes
  import opened Outcomes
  import opened PageLayout
  import opened PageRuns
  import opened PageBytes

  lemma DeleteFinished(b: Data, b1: Data, r: Data, p: Page, index: nat, q: Page)
    requires IsPage(b) && p == PageOf(b) && index < |p.cells| && q == Delete(p, index)
    requires Written(b, SlotOffset(index), b[SlotOffset(index + 1)..SlotOffset(|p.cells|)], b1)
    requires Written(b1, COUNT_OFFSET, LE16(|p.cells| - 1), r)
    ensures IsPage(r) && PageOf(r) == q
  {
    ReadIsRepresented(b);
    DeletedRepresents(b, b1, r, p, index);
    RepresentedIsRead(r, q);
  }

  lemma CompactFinished(b: Data, r: Data, r1: Data, r2: Data, p: Page, count: nat, free: nat, heap: nat, q: Page)
    requires IsPage(b) && p == PageOf(b) && count == |p.cells| && free == FreeSpace(p) && heap == PAGE_SIZE - Live(p)
    requires Repacked(b, r, p, count) && SlotOffset(count) + free <= |r| && heap < U16_LIMIT
    requires Written(r, SlotOffset(count), Zeros(free), r1) && Written(r1, HEAP_OFFSET, LE16(heap), r2)
    requires q == p.(heap := heap, cells := Pack(Records(p)))
    ensures IsPage(r2) && PageOf(r2) == q && Cleared(r2, q)
  {
    ReadIsRepresented(b);
    PackedIsWellFormed(p, q);
    CompactedRepresents(b, r, r1, r2, p, q);
    RepresentedIsRead(r2, q);
    ClearedBetween(r, r1, r2, count, free, heap, q);
  }

  /** Nothing is left behind the header. */
  ghost predicate ZeroBehindHeader(b: Data) {
    |b| == 8192 && forall k :: 25 <= k < 8192 ==> b[k] == 0
  }

  /** Nothing is left between the slot array and the heap. */
  ghost predicate Cleared(b: Data, p: Page) {
    forall k :: SlotOffset(|p.cells|) <= k < p.heap && k < |b| ==> b[k] == 0
  }

  lemma ClearedBetween(r: Data, r1: Data, r2: Data, count: nat, free: nat, heap: nat, q: Page)
    requires Written(r, SlotOffset(count), Zeros(free), r1) && heap < U16_LIMIT
    requires Written(r1, HEAP_OFFSET, LE16(heap), r2)
    requires |q.cells| == count && q.heap == heap == SlotOffset(count) + free
    ensures Cleared(r2, q)
  {
  }

  lemma PackedIsWellFormed(p: Page, q: Page)
    requires WellFormed(p) && q == p.(heap := PAGE_SIZE - Live(p), cells := Pack(Records(p)))
    ensures WellFormed(q)
  {
    LiveFits(p);
    PackFits(Records(p), Pack(Records(p)), PAGE_SIZE - Live(p));
  }

  lemma BlockHolds(rs: seq<Data>, i: nat, block: Data, from: nat, size: nat)
    requires i < |rs| && block == Flatten(rs) && from == Total(rs[..i]) && size == |rs[i]|
    ensures from + size <= |block| && block[from..from + size] == rs[i]
    ensures Total(rs[..i + 1]) == from + size <= Total(rs)
  {
    TotalPrefix(rs, i);
    FlattenSlice(rs, i);
  }

  lemma InsertFinished(b: Data, r: Data, p: Page, index: nat, record: Data)
    requires IsPage(b) && p == PageOf(b) && Insert(p, index, record).Ok?
    requires InsertWrites(b, r, index, record, |p.cells|, p.heap)
    ensures IsPage(r) && PageOf(r) == WithCell(p, index, record)
  {
    ReadIsRepresented(b);
    InsertedRepresents(b, r, p, index, record, WithCell(p, index, record));
    RepresentedIsRead(r, WithCell(p, index, record));
  }

  class SlottedPageView {
    const buffer: array<Byte>

    ghost predicate Valid()
      reads buffer
    {
      buffer.Length == PAGE_SIZE && IsPage(buffer[..])
    }

    /** The page value the bytes stand for. */
    ghost function State(): Page
      requires Valid()
      reads buffer
    {
      PageOf(buffer[..])
    }

    constructor (buffer: array<Byte>)
      ensures this.buffer == buffer
    {
      this.buffer := buffer;
    }

    method Initialize(kind: Byte, parent: Option<nat>)
      requires buffer.Length == PAGE_SIZE
      requires parent.Some? ==> parent.value < U64_LIMIT
      modifies buffer
      ensures Valid() && State() == PageLayout.Initialize(kind, parent)
      ensures ZeroBehindHeader(buffer[..])
    {
      var parentIndex: nat := if parent.Some? then parent.value else U64_LIMIT - 1;
      WriteEmpty(kind, parentIndex);
      assert parentIndex % U32_LIMIT == PageLayout.Initialize(kind, parent).parent;
      InitializedRepresents(buffer[..], kind, parent, parentIndex);
      RepresentedIsRead(buffer[..], PageLayout.Initialize(kind, parent));
    }

    method WriteEmpty(kind: Byte, parentIndex: nat)
      requires buffer.Length == PAGE_SIZE && parentIndex < U64_LIMIT
      modifies buffer
      ensures EmptyHeader(buffer[..], kind, parentIndex) && ZeroBehindHeader(buffer[..])
    {
      FillZero(buffer, 0, PAGE_SIZE);
      buffer[KIND_OFFSET] := kind;
      CopyFromSlice(buffer, COUNT_OFFSET, LE16(0));
      CopyFromSlice(buffer, PARENT_OFFSET, LE64(parentIndex));
      CopyFromSlice(buffer, PREV_OFFSET, LE32(INVALID_INDEX));
      CopyFromSlice(buffer, NEXT_OFFSET, LE32(INVALID_INDEX));
      CopyFromSlice(buffer, PREV_OFFSET, LE32(INVALID_INDEX));
      CopyFromSlice(buffer, HEAP_OFFSET, LE16(PAGE_SIZE));
    }

    method GetU16(o: nat) returns (v: nat)
      requires o + 2 <= buffer.Length
      ensures v == U16(buffer[..], o)
    {
      v := U16(buffer[o..o + 2], 0);
    }

    method GetU32(o: nat) returns (v: nat)
      requires o + 4 <= buffer.Length
      ensures v == U32(buffer[..], o)
    {
      v := U32(buffer[o..o + 4], 0);
    }

    method GetU64(o: nat) returns (v: nat)
      requires o + 8 <= buffer.Length
      ensures v == U64(buffer[..], o)
    {
      v := U64(buffer[o..o + 8], 0);
    }

    method GetItemCount() returns (count: nat)
      requires Valid()
      ensures count == |State().cells|
    {
      count := GetU16(COUNT_OFFSET);
    }

    method GetSlot(index: nat) returns (off: nat, len: nat)
      requires Valid() && index < |State().cells|
      ensures off == State().cells[index].off && len == |State().cells[index].data|
    {
      off := GetU16(SlotOffset(index));
      len := GetU16(SlotOffset(index) + 2);
      assert SlotInside(buffer[..], index);
    }

    /** The record at `index`, or None when there is no such slot. */
    method GetRecord(index: nat) returns (record: Option<Data>)
      requires Valid()
      ensures record == if index < |Records(State())| then Some(Records(State())[index]) else None
    {
      var count := GetItemCount();
      if index >= count {
        return None;
      }
      var off, len := GetSlot(index);
      assert SlotInside(buffer[..], index) && CellAt(buffer[..], index) == State().cells[index];
      record := Some(buffer[off..off + len]);
    }

    method GetFreeSpaceContiguous() returns (free: nat)
      requires Valid()
      ensures free == Contiguous(State())
    {
      var count := GetItemCount();
      var heap := GetU16(HEAP_OFFSET);
      var heapSize: nat := PAGE_SIZE - heap;
      free := PAGE_SIZE - HEADER_SIZE - count * SLOT_SIZE - heapSize;
    }

    /** Total free space; none of the subtractions goes below zero. */
    method GetFreeSpace() returns (free: nat)
      requires Valid()
      ensures free == FreeSpace(State())
      ensures free == PAGE_SIZE - HEADER_SIZE - SLOT_SIZE * |Records(State())| - Total(Records(State()))
    {
      var count := GetItemCount();
      var slotArraySize: nat := count * SLOT_SIZE;
      var heap := GetU16(HEAP_OFFSET);
      var heapSize: nat := PAGE_SIZE - heap;
      var contiguous: nat := PAGE_SIZE - HEADER_SIZE - slotArraySize - heapSize;
      var used: nat := 0;
      ghost var rs := Records(State());
      for i := 0 to count
        invariant used == Total(rs[..i])
      {
        var _, len := GetSlot(i);
        TotalPrefix(rs, i);
        used := used + len;
      }
      assert rs[..count] == rs;
      LiveFits(State());
      var fragmented: nat := heapSize - used;
      free := contiguous + fragmented;
    }

    /** The writes of an insertion: record, heap start, shifted slots, new slot, count. */
    method WriteInserted(index: nat, record: Data, count: nat, off: nat)
      requires buffer.Length == PAGE_SIZE && index <= count && SlotOffset(count + 1) <= off
      requires off + |record| <= PAGE_SIZE
      modifies buffer
      ensures InsertWrites(old(buffer[..]), buffer[..], index, record, count, off + |record|)
    {
      ghost var b := buffer[..];
      CopyFromSlice(buffer, off, record);
      ghost var b1 := buffer[..];
      CopyFromSlice(buffer, HEAP_OFFSET, LE16(off));
      ghost var b2 := buffer[..];
      var slotsToShift := count - index;
      if slotsToShift > 0 {
        CopyWithin(buffer, SlotOffset(index), slotsToShift * SLOT_SIZE, SlotOffset(index + 1));
      }
      ghost var b3 := buffer[..];
      CopyFromSlice(buffer, SlotOffset(index), LE16(off));
      ghost var b4 := buffer[..];
      CopyFromSlice(buffer, SlotOffset(index) + 2, LE16(|record|));
      ghost var b5 := buffer[..];
      CopyFromSlice(buffer, COUNT_OFFSET, LE16(count + 1));
      InsertStepsWrite(b, b1, b2, b3, b4, b5, buffer[..], index, record, count, off);
    }

    /** Insertion at `index`: the page-full check comes before the index check, an error changes
        no byte, and success leaves the bytes of the page with the record inserted. */
    method TryInsertRecord(index: nat, record: Data) returns (result: Result<nat>)
      requires Valid()
      modifies buffer
      ensures Valid()
      ensures result == match Insert(old(State()), index, record) case Ok(_) => Ok(index) case Err(e) => Err(e)
      ensures result.Ok? ==> State() == Insert(old(State()), index, record).value
      ensures result.Err? ==> buffer[..] == old(buffer[..])
    {
      ghost var b, p := buffer[..], State();
      var free := GetFreeSpaceContiguous();
      if free < |record| + SLOT_SIZE {
        return Err(PageFull);
      }
      var count := GetItemCount();
      if index > count {
        return Err(InvalidSlotIndex);
      }
      var heap := GetU16(HEAP_OFFSET);
      var off := heap - |record|;
      WriteInserted(index, record, count, off);
      InsertFinished(b, buffer[..], p, index, record);
      result := Ok(index);
    }

    /** `set_slot`: offset, then length. */
    method SetSlot(index: nat, off: nat, record: Data)
      requires buffer.Length == PAGE_SIZE && SlotOffset(index + 1) <= PAGE_SIZE
      requires off < U16_LIMIT && |record| < U16_LIMIT
      modifies buffer
      ensures HasSlot(buffer[..], index, Cell(off, record))
      ensures SlotOnly(old(buffer[..]), buffer[..], index)
    {
      CopyFromSlice(buffer, SlotOffset(index), LE16(off));
      ghost var b1 := buffer[..];
      CopyFromSlice(buffer, SlotOffset(index) + 2, LE16(|record|));
      ghost var r := buffer[..];
      assert r[SlotOffset(index)] == LE16(off)[0] && r[SlotOffset(index) + 1] == LE16(off)[1];
      assert r[SlotOffset(index) + 2] == LE16(|record|)[0] && r[SlotOffset(index) + 3] == LE16(|record|)[1];
    }

    /** Update at `index`: in place when the new record is no longer, below the heap otherwise. */
    method TryUpdateRecord(index: nat, record: Data) returns (result: Result<nat>)
      requires Valid()
      modifies buffer
      ensures Valid()
      ensures result == match Update(old(State()), index, record) case Ok(_) => Ok(index) case Err(e) => Err(e)
      ensures result.Ok? ==> State() == Update(old(State()), index, record).value
      ensures result.Err? ==> buffer[..] == old(buffer[..])
    {
      var count := GetItemCount();
      if index >= count {
        return Err(InvalidSlotIndex);
      }
      var off, len := GetSlot(index);
      if |record| <= len {
        Overwrite(index, off, len, record);
      } else {
        var free := GetFreeSpaceContiguous();
        if |record| > free {
          return Err(PageFull);
        }
        Relocate(index, record);
      }
      result := Ok(index);
    }

    /** Writes a record that is no longer over the old one. */
    method Overwrite(index: nat, off: nat, len: nat, record: Data)
      requires Valid() && index < |State().cells| && off == State().cells[index].off
      requires len == |State().cells[index].data|
      requires |record| <= len
      modifies buffer
      ensures Valid() && Ok(State()) == Update(old(State()), index, record)
    {
      ghost var b, p := buffer[..], State();
      ReadIsRepresented(b);
      assert InHeap(p.cells[index], p.heap);
      CopyFromSlice(buffer, off, record);
      ghost var b1 := buffer[..];
      if |record| < len {
        SetSlot(index, off, record);
      } else {
        assert HasSlot(b, index, p.cells[index]);
        SlotKept(b, off, record, b1, index, p.cells[index]);
      }
      ghost var q := p.(cells := p.cells[index := Cell(off, record)]);
      OverwrittenRepresents(b, b1, buffer[..], p, index, record, q);
      RepresentedIsRead(buffer[..], q);
    }

    /** Writes a longer record just below the heap. */
    method Relocate(index: nat, record: Data)
      requires Valid() && index < |State().cells| && |State().cells[index].data| < |record| <= Contiguous(State())
      modifies buffer
      ensures Valid() && Ok(State()) == Update(old(State()), index, record)
    {
      ghost var b, p := buffer[..], State();
      ReadIsRepresented(b);
      var heap := GetU16(HEAP_OFFSET);
      var newOff := heap - |record|;
      CopyFromSlice(buffer, newOff, record);
      ghost var b1 := buffer[..];
      SetSlot(index, newOff, record);
      ghost var b2 := buffer[..];
      CopyFromSlice(buffer, HEAP_OFFSET, LE16(newOff));
      ghost var q := p.(heap := newOff, cells := p.cells[index := Cell(newOff, record)]);
      RelocatedRepresents(b, b1, b2, buffer[..], p, index, record, q);
      RepresentedIsRead(buffer[..], q);
    }

    /** Removes the slot at `index`; an index out of range is ignored. */
    method DeleteRecord(index: nat)
      requires Valid()
      modifies buffer
      ensures Valid() && State() == Delete(old(State()), index)
      ensures index >= |old(State()).cells| ==> buffer[..] == old(buffer[..])
    {
      ghost var b, p := buffer[..], State();
      var count := GetItemCount();
      if index >= count {
        return;
      }
      var bytesToShift: nat := count * SLOT_SIZE - (index + 1) * SLOT_SIZE;
      if bytesToShift > 0 {
        CopyWithin(buffer, SlotOffset(index + 1), bytesToShift, SlotOffset(index));
      }
      ghost var b1 := buffer[..];
      CopyFromSlice(buffer, COUNT_OFFSET, LE16(count - 1));
      DeleteFinished(b, b1, buffer[..], p, index, Delete(p, index));
    }

    /** Repacks the records against the end of the page when there is fragmented space. */
    method Compact()
      requires Valid()
      modifies buffer
      ensures Valid() && State() == PageLayout.Compact(old(State()))
      ensures Records(State()) == old(Records(State())) && Contiguous(State()) == FreeSpace(State())
      ensures if FreeSpace(old(State())) == Contiguous(old(State())) then buffer[..] == old(buffer[..])
              else Cleared(buffer[..], State())
    {
      ghost var b, p := buffer[..], State();
      CompactKeeps(p);
      var freeSpace := GetFreeSpace();
      var contiguous := GetFreeSpaceContiguous();
      if freeSpace == contiguous {
        return;
      }
      var count := GetItemCount();
      var block := CopyRecords(count);
      RepackAll(count, block, freeSpace, p);
    }

    /** Writes the packed records, clears the space below them and moves the heap start. */
    method RepackAll(count: nat, block: Data, freeSpace: nat, ghost p: Page)
      requires Valid() && p == State() && count == |p.cells| && block == Flatten(Records(p))
      requires freeSpace == FreeSpace(p)
      modifies buffer
      ensures Valid() && State() == p.(heap := PAGE_SIZE - Live(p), cells := Pack(Records(p)))
      ensures Cleared(buffer[..], State())
    {
      ghost var b := buffer[..];
      LiveFits(p);
      var heap := WritePacked(count, block, p);
      ghost var r := buffer[..];
      FillZero(buffer, SlotOffset(count), freeSpace);
      ghost var r1 := buffer[..];
      CopyFromSlice(buffer, HEAP_OFFSET, LE16(heap));
      CompactFinished(b, r, r1, buffer[..], p, count, freeSpace, heap, p.(heap := heap, cells := Pack(Records(p))));
    }

    /** Copies every record into one block. */
    method CopyRecords(count: nat) returns (block: Data)
      requires Valid() && count == |State().cells|
      ensures block == Flatten(Records(State()))
    {
      block := [];
      ghost var rs := Records(State());
      for i := 0 to count
        invariant block == Flatten(rs[..i])
      {
        var record := GetRecord(i);
        assert rs[..i + 1][..i] == rs[..i];
        block := block + record.value;
      }
      assert rs[..count] == rs;
    }

    /** Writes one record at its packed place and points its slot there. */
    method PlaceRecord(i: nat, off: nat, record: Data, ghost b: Data, ghost p: Page)
      requires Repacked(b, buffer[..], p, i) && i < |p.cells| && record == Records(p)[i] && |record| < U16_LIMIT
      requires off == PAGE_SIZE - Total(Records(p)[..i + 1]) && off + |record| <= PAGE_SIZE
      modifies buffer
      ensures Repacked(b, buffer[..], p, i + 1)
    {
      ghost var r := buffer[..];
      CopyFromSlice(buffer, off, record);
      ghost var r1 := buffer[..];
      SetSlot(i, off, record);
      RepackStep(b, r, r1, buffer[..], p, i, off);
    }

    /** Takes the next record from the block and writes it below the one before. */
    method PlaceNext(i: nat, block: Data, from: nat, heap: nat, ghost b: Data, ghost p: Page)
      returns (from': nat, heap': nat)
      requires Repacked(b, buffer[..], p, i) && i < |p.cells| && block == Flatten(Records(p))
      requires Total(Records(p)) <= PAGE_SIZE
      requires from == Total(Records(p)[..i]) && heap == PAGE_SIZE - from
      modifies buffer
      ensures Repacked(b, buffer[..], p, i + 1) && from' == Total(Records(p)[..i + 1]) && heap' == PAGE_SIZE - from'
    {
      ghost var rs := Records(p);
      assert HasSlot(buffer[..], i, p.cells[i]);
      var size := GetU16(SlotOffset(i) + 2);
      BlockHolds(rs, i, block, from, size);
      var record := block[from..from + size];
      from' := from + size;
      heap' := heap - size;
      PlaceRecord(i, heap', record, b, p);
    }

    /** Writes the block back record by record, from the end of the page down. */
    method WritePacked(count: nat, block: Data, ghost p: Page) returns (heap: nat)
      requires Valid() && p == State() && count == |p.cells| && block == Flatten(Records(p))
      modifies buffer
      ensures Repacked(old(buffer[..]), buffer[..], p, count) && heap == PAGE_SIZE - Live(p)
    {
      ghost var b, rs := buffer[..], Records(p);
      ReadIsRepresented(b);
      LiveFits(p);
      heap := PAGE_SIZE;
      var from: nat := 0;
      for i := 0 to count
        invariant from == Total(rs[..i]) && heap == PAGE_SIZE - from
        invariant Repacked(b, buffer[..], p, i)
      {
        from, heap := PlaceNext(i, block, from, heap, b, p);
      }
      assert rs[..count] == rs;
    }

    /** `set_next_leaf_index` and `set_prev_leaf_index` write one header field each. */
    method SetNext(link: Option<nat>)
      requires Valid() && (link.Some? ==> link.value < U32_LIMIT)
      modifies buffer
      ensures Valid() && State() == old(State()).(next := RawLink(link))
    {
      ghost var b := buffer[..];
      CopyFromSlice(buffer, NEXT_OFFSET, LE32(RawLink(link)));
      ReadIsRepresented(b);
      LinkWritten(b, PageOf(b), NEXT_OFFSET, RawLink(link), buffer[..], PageOf(b).(next := RawLink(link)));
      RepresentedIsRead(buffer[..], PageOf(b).(next := RawLink(link)));
    }

    method SetPrev(link: Option<nat>)
      requires Valid() && (link.Some? ==> link.value < U32_LIMIT)
      modifies buffer
      ensures Valid() && State() == old(State()).(prev := RawLink(link))
    {
      ghost var b := buffer[..];
      CopyFromSlice(buffer, PREV_OFFSET, LE32(RawLink(link)));
      ReadIsRepresented(b);
      LinkWritten(b, PageOf(b), PREV_OFFSET, RawLink(link), buffer[..], PageOf(b).(prev := RawLink(link)));
      RepresentedIsRead(buffer[..], PageOf(b).(prev := RawLink(link)));
    }
  }
}
