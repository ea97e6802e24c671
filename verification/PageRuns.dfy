/** What the page operations do to the list of records, one at a time and over whole runs. */
module PageRuns {
  import opened Bytes
  import opened Outcomes
  import opened PageLayout

  // ---------------------------------------------------------------- one operation

  /** Insertion succeeds exactly when the record and one slot fit between the slot array and the
      heap and the index is in range; it then acts as list insertion and costs that much space. */
  lemma InsertKeeps(p: Page, index: nat, record: Data)
    requires WellFormed(p)
    ensures Insert(p, index, record).Ok? <==> |record| + SLOT_SIZE <= Contiguous(p) && index <= |p.cells|
    ensures Insert(p, index, record).Ok? ==>
              var q := Insert(p, index, record).value;
              && WellFormed(q)
              && Records(q) == Records(p)[..index] + [record] + Records(p)[index..]
              && FreeSpace(q) == FreeSpace(p) - |record| - SLOT_SIZE
              && Contiguous(q) == Contiguous(p) - |record| - SLOT_SIZE
  {
    if Insert(p, index, record).Ok? {
      var c := Cell(p.heap - |record|, record);
      InsertedApart(p, index, c);
      var cells := p.cells[..index] + [c] + p.cells[index..];
      assert Insert(p, index, record).value == p.(heap := c.off, cells := cells);
      assert DataOf(cells) == Records(p)[..index] + [record] + Records(p)[index..] by {
        RecordsInserted(p.cells, index, c);
      }
      assert Total(DataOf(cells)) == Live(p) + |record| by { TotalInsert(Records(p), index, record); }
    }
  }

  lemma RecordsInserted(cells: seq<Cell>, index: nat, c: Cell)
    requires index <= |cells|
    ensures DataOf(cells[..index] + [c] + cells[index..]) == DataOf(cells)[..index] + [c.data] + DataOf(cells)[index..]
  {
  }

  lemma TotalInsert(rs: seq<Data>, index: nat, record: Data)
    requires index <= |rs|
    ensures Total(rs[..index] + [record] + rs[index..]) == Total(rs) + |record|
  {
    TotalConcat(rs[..index] + [record], rs[index..]);
    TotalConcat(rs[..index], [record]);
    TotalOne(record);
    TotalConcat(rs[..index], rs[index..]);
    assert rs == rs[..index] + rs[index..];
  }

  /** A cell placed just below the heap is apart from every cell already in it. */
  lemma InsertedApart(p: Page, index: nat, c: Cell)
    requires WellFormed(p) && index <= |p.cells|
    requires c.off + |c.data| == p.heap
    ensures var cells := p.cells[..index] + [c] + p.cells[index..];
            && (forall i :: 0 <= i < |cells| ==> InHeap(cells[i], c.off))
            && (forall i, j :: 0 <= i < j < |cells| ==> Apart(cells[i], cells[j]))
  {
    var cells := p.cells[..index] + [c] + p.cells[index..];
    forall i | 0 <= i < |cells| ensures InHeap(cells[i], c.off) {
      if i != index { assert InHeap(p.cells[if i < index then i else i - 1], p.heap); }
    }
    forall i, j | 0 <= i < j < |cells| ensures Apart(cells[i], cells[j]) {
      var i', j' := if i < index then i else i - 1, if j < index then j else j - 1;
      if i == index {
        assert InHeap(p.cells[j'], p.heap);
      } else if j == index {
        assert InHeap(p.cells[i'], p.heap);
      } else {
        assert Apart(p.cells[i'], p.cells[j']);
      }
    }
  }

  /** Replacing a cell by one in the same place and no longer, or by one just below the heap. */
  lemma ReplacedApart(p: Page, index: nat, c: Cell, heap: int)
    requires WellFormed(p) && index < |p.cells|
    requires || (heap == p.heap && c.off == p.cells[index].off && |c.data| <= |p.cells[index].data|)
             || (heap == c.off && c.off + |c.data| == p.heap)
    ensures var cells := p.cells[index := c];
            && (forall i :: 0 <= i < |cells| ==> InHeap(cells[i], heap))
            && (forall i, j :: 0 <= i < j < |cells| ==> Apart(cells[i], cells[j]))
  {
    var cells := p.cells[index := c];
    forall i | 0 <= i < |cells| ensures InHeap(cells[i], heap) {
      assert InHeap(p.cells[i], p.heap);
    }
    forall i, j | 0 <= i < j < |cells| ensures Apart(cells[i], cells[j]) {
      assert Apart(p.cells[i], p.cells[j]);
      assert InHeap(p.cells[i], p.heap) && InHeap(p.cells[j], p.heap);
    }
  }

  lemma {:induction false} TotalReplace(rs: seq<Data>, index: nat, record: Data)
    requires index < |rs|
    ensures Total(rs[index := record]) == Total(rs) - |rs[index]| + |record|
  {
    var a, b := rs[..index], rs[index + 1..];
    assert rs == a + [rs[index]] + b && rs[index := record] == a + [record] + b;
    TotalConcat(a + [rs[index]], b);
    TotalConcat(a + [record], b);
    TotalConcat(a, [rs[index]]);
    TotalConcat(a, [record]);
    TotalOne(rs[index]);
    TotalOne(record);
  }

  /** An update succeeds exactly when the index is in range and the record is no longer than the one
      it replaces or fits in the contiguous free space; it then replaces one list element. */
  lemma UpdateKeeps(p: Page, index: nat, record: Data)
    requires WellFormed(p)
    ensures Update(p, index, record).Ok? <==>
              index < |p.cells| && (|record| <= |Records(p)[index]| || |record| <= Contiguous(p))
    ensures Update(p, index, record).Ok? ==>
              var q := Update(p, index, record).value;
              && WellFormed(q)
              && Records(q) == Records(p)[index := record]
              && FreeSpace(q) == FreeSpace(p) + |Records(p)[index]| - |record|
  {
    if Update(p, index, record).Ok? {
      var q := Update(p, index, record).value;
      ReplacedApart(p, index, q.cells[index], q.heap);
      assert Records(q) == Records(p)[index := record];
      TotalReplace(Records(p), index, record);
    }
  }

  lemma DeleteKeeps(p: Page, index: nat)
    requires WellFormed(p)
    ensures WellFormed(Delete(p, index))
    ensures index >= |p.cells| ==> Delete(p, index) == p
    ensures index < |p.cells| ==>
              var q := Delete(p, index);
              && Records(q) == Records(p)[..index] + Records(p)[index + 1..]
              && FreeSpace(q) == FreeSpace(p) + |Records(p)[index]| + SLOT_SIZE
  {
    if index < |p.cells| {
      var q, rs := Delete(p, index), Records(p);
      forall i | 0 <= i < |q.cells| ensures InHeap(q.cells[i], q.heap) {
        assert InHeap(p.cells[if i < index then i else i + 1], p.heap);
      }
      forall i, j | 0 <= i < j < |q.cells| ensures Apart(q.cells[i], q.cells[j]) {
        assert Apart(p.cells[if i < index then i else i + 1], p.cells[if j < index then j else j + 1]);
      }
      assert Records(q) == rs[..index] + rs[index + 1..];
      assert rs == rs[..index] + [rs[index]] + rs[index + 1..];
      TotalConcat(rs[..index] + [rs[index]], rs[index + 1..]);
      TotalConcat(rs[..index], [rs[index]]);
      TotalOne(rs[index]);
      TotalConcat(rs[..index], rs[index + 1..]);
    }
  }

  lemma PackApart(rs: seq<Data>, i: nat, j: nat)
    requires i < j < |rs|
    ensures Apart(Pack(rs)[i], Pack(rs)[j])
  {
    TotalPrefix(rs, j);
    PrefixTotals(rs, i + 1, j);
  }

  lemma PackInHeap(rs: seq<Data>, i: nat)
    requires i < |rs|
    ensures InHeap(Pack(rs)[i], PAGE_SIZE - Total(rs))
  {
    TotalPrefix(rs, i);
  }

  lemma PackFits(rs: seq<Data>, cells: seq<Cell>, heap: int)
    requires cells == Pack(rs) && heap == PAGE_SIZE - Total(rs)
    ensures forall i :: 0 <= i < |cells| ==> InHeap(cells[i], heap)
    ensures forall i, j :: 0 <= i < j < |cells| ==> Apart(cells[i], cells[j])
    ensures DataOf(cells) == rs
  {
    PackAllInHeap(rs, cells, heap);
    PackAllApart(rs, cells);
    PackKeepsData(rs);
  }

  lemma PackKeepsData(rs: seq<Data>)
    ensures DataOf(Pack(rs)) == rs
  {
  }

  lemma PackAllInHeap(rs: seq<Data>, cells: seq<Cell>, heap: int)
    requires cells == Pack(rs) && heap == PAGE_SIZE - Total(rs)
    ensures forall i :: 0 <= i < |cells| ==> InHeap(cells[i], heap)
  {
    forall i | 0 <= i < |cells| ensures InHeap(cells[i], heap) {
      PackInHeap(rs, i);
    }
  }

  lemma PackAllApart(rs: seq<Data>, cells: seq<Cell>)
    requires cells == Pack(rs)
    ensures forall i, j :: 0 <= i < j < |cells| ==> Apart(cells[i], cells[j])
  {
    forall i, j | 0 <= i < j < |cells| ensures Apart(cells[i], cells[j]) {
      PackApart(rs, i, j);
    }
  }

  /** Compaction keeps every record at its index, leaves no fragmentation, puts the heap start at
      the page size minus the live bytes, and does nothing the second time. */
  lemma CompactKeeps(p: Page)
    requires WellFormed(p)
    ensures WellFormed(Compact(p)) && Records(Compact(p)) == Records(p)
    ensures Contiguous(Compact(p)) == FreeSpace(Compact(p)) == FreeSpace(p)
    ensures Compact(p).heap == PAGE_SIZE - Live(p)
    ensures Compact(Compact(p)) == Compact(p)
  {
    LiveFits(p);
    PackFits(Records(p), Pack(Records(p)), PAGE_SIZE - Live(p));
  }

  /** After compaction an insertion at a valid index fails only for want of logical free space. */
  lemma InsertAfterCompact(p: Page, index: nat, record: Data)
    requires WellFormed(p) && index <= |p.cells|
    ensures Insert(Compact(p), index, record).Ok? <==> |record| + SLOT_SIZE <= FreeSpace(p)
  {
    CompactKeeps(p);
    InsertKeeps(Compact(p), index, record);
  }

  // ---------------------------------------------------------------- whole runs

  datatype Op =
    | InsertOp(index: nat, record: Data)
    | UpdateOp(index: nat, record: Data)
    | DeleteOp(index: nat)
    | CompactOp

  predicate Accepted(p: Page, op: Op) {
    match op
    case InsertOp(i, r) => Insert(p, i, r).Ok?
    case UpdateOp(i, r) => Update(p, i, r).Ok?
    case DeleteOp(i) => i < |p.cells|
    case CompactOp => true
  }

  /** One call on the page; a call that reports an error leaves the page as it was. */
  function Apply(p: Page, op: Op): Page {
    if !Accepted(p, op) then p
    else
      match op
      case InsertOp(i, r) => Insert(p, i, r).value
      case UpdateOp(i, r) => Update(p, i, r).value
      case DeleteOp(i) => Delete(p, i)
      case CompactOp => Compact(p)
  }

  /** The same call on a plain list. */
  function ApplyToList(rs: seq<Data>, op: Op): seq<Data>
    requires op.InsertOp? ==> op.index <= |rs|
    requires op.UpdateOp? || op.DeleteOp? ==> op.index < |rs|
  {
    match op
    case InsertOp(i, r) => rs[..i] + [r] + rs[i..]
    case UpdateOp(i, r) => rs[i := r]
    case DeleteOp(i) => rs[..i] + rs[i + 1..]
    case CompactOp => rs
  }

  function Run(p: Page, ops: seq<Op>): Page {
    if ops == [] then p else Apply(Run(p, ops[..|ops| - 1]), ops[|ops| - 1])
  }

  /** The list a client keeps by applying the calls that were not refused. */
  function ListRun(p: Page, ops: seq<Op>): (rs: seq<Data>)
    requires WellFormed(p)
    ensures WellFormed(Run(p, ops)) && rs == Records(Run(p, ops))
  {
    if ops == [] then Records(p)
    else
      var before, op := Run(p, ops[..|ops| - 1]), ops[|ops| - 1];
      var rs := ListRun(p, ops[..|ops| - 1]);
      StepRefines(before, op);
      if Accepted(before, op) then ApplyToList(rs, op) else rs
  }

  lemma StepRefines(p: Page, op: Op)
    requires WellFormed(p)
    ensures WellFormed(Apply(p, op))
    ensures Accepted(p, op) && op.InsertOp? ==> op.index <= |Records(p)|
    ensures Accepted(p, op) && (op.UpdateOp? || op.DeleteOp?) ==> op.index < |Records(p)|
    ensures Records(Apply(p, op)) == if Accepted(p, op) then ApplyToList(Records(p), op) else Records(p)
  {
    match op
    case InsertOp(i, r) => InsertKeeps(p, i, r);
    case UpdateOp(i, r) => UpdateKeeps(p, i, r);
    case DeleteOp(i) => DeleteKeeps(p, i);
    case CompactOp => CompactKeeps(p);
  }

  /** From an initialised page, every run keeps the slot array below the heap and the live records
      inside the heap and apart, and the records are what the client's list says; the free space
      is exactly what header, slots and live records leave. */
  lemma RunsRefineLists(kind: Byte, parent: Option<nat>, ops: seq<Op>)
    ensures var p := Run(Initialize(kind, parent), ops);
            && WellFormed(p)
            && Records(p) == ListRun(Initialize(kind, parent), ops)
            && 0 <= Contiguous(p) <= FreeSpace(p) ==
               PAGE_SIZE - HEADER_SIZE - SLOT_SIZE * |Records(p)| - Total(Records(p))
  {
    var init := Initialize(kind, parent);
    var rs := ListRun(init, ops);
    LiveFits(Run(init, ops));
  }

  // ---------------------------------------------------------------- header, errors and space

  /** An initialised page: empty, linked to nothing, zero but for its header; the parent keeps the low
      half of its index, all ones for none. */
  lemma InitializedPage(kind: Byte, parent: Option<nat>)
    ensures var p := Initialize(kind, parent);
            && WellFormed(p) && Records(p) == [] && p.kind == kind && p.lsn == Zeros(8) && p.heap == 8192
            && LinkOf(p.prev) == None && LinkOf(p.next) == None
            && p.parent == (match parent case None => 0xFFFF_FFFF case Some(v) => v % 0x1_0000_0000)
            && FreeSpace(p) == Contiguous(p) == 8160
  {
  }

  /** No operation on records changes the header fields that are not its own. */
  lemma HeaderStays(p: Page, op: Op)
    ensures var q := Apply(p, op);
            && q.lsn == p.lsn && q.parent == p.parent && q.prev == p.prev && q.next == p.next && q.kind == p.kind
  {
  }

  lemma {:induction false} RunKeepsHeader(p: Page, ops: seq<Op>)
    ensures var q := Run(p, ops);
            && q.lsn == p.lsn && q.parent == p.parent && q.prev == p.prev && q.next == p.next && q.kind == p.kind
  {
    if ops != [] {
      RunKeepsHeader(p, ops[..|ops| - 1]);
      HeaderStays(Run(p, ops[..|ops| - 1]), ops[|ops| - 1]);
    }
  }

  /** Which error it is: a full page is reported before an index out of range by an insertion, and
      after it by an update. */
  lemma ErrorsAre(p: Page, index: nat, record: Data)
    requires WellFormed(p)
    ensures Insert(p, index, record) == Err(PageFull) <==> |record| + 4 > Contiguous(p)
    ensures Insert(p, index, record) == Err(InvalidSlotIndex) <==> |record| + 4 <= Contiguous(p) && index > |Records(p)|
    ensures Update(p, index, record) == Err(InvalidSlotIndex) <==> index >= |Records(p)|
    ensures Update(p, index, record) == Err(PageFull) <==>
              index < |Records(p)| && |record| > |Records(p)[index]| && |record| > Contiguous(p)
  {
  }

  /** What an update and a deletion take from or give to the contiguous space: a record that is no
      longer stays in place, a longer one moves below the heap, and a deletion frees its slot only. */
  lemma ContiguousAfter(p: Page, index: nat, record: Data)
    requires WellFormed(p) && index < |Records(p)|
    ensures Update(p, index, record).Ok? ==>
              var q := Update(p, index, record).value;
              if |record| <= |Records(p)[index]| then q.heap == p.heap && q.cells[index].off == p.cells[index].off
              else q.heap == p.heap - |record| && q.cells[index].off == q.heap
    ensures Delete(p, index).heap == p.heap && Contiguous(Delete(p, index)) == Contiguous(p) + 4
  {
  }

  /** An inserted record lies just below the heap as it was. */
  lemma InsertedBelowHeap(p: Page, index: nat, record: Data)
    requires WellFormed(p) && Insert(p, index, record).Ok?
    ensures var q := Insert(p, index, record).value;
            q.heap == p.heap - |record| && index < |q.cells| && q.cells[index] == Cell(q.heap, record)
  {
  }

  /** The first record ends at the end of the page, and every other one where the one before it starts. */
  predicate StackedAt(cells: seq<Cell>, i: nat)
    requires i < |cells|
  {
    cells[i].off + |cells[i].data| == if i == 0 then 8192 else cells[i - 1].off
  }

  /** Compaction that has something to do stacks the records down from the end of the page. */
  lemma CompactedPlaces(p: Page)
    requires WellFormed(p) && FreeSpace(p) != Contiguous(p)
    ensures forall i :: 0 <= i < |Compact(p).cells| ==> StackedAt(Compact(p).cells, i)
  {
    forall i | 0 <= i < |p.cells| ensures StackedAt(Pack(Records(p)), i) {
      PackStacks(Records(p), i);
    }
  }

  lemma PackStacks(rs: seq<Data>, i: nat)
    requires i < |rs|
    ensures StackedAt(Pack(rs), i)
  {
    TotalPrefix(rs, i);
  }

  /** Reading back a sibling link: None is the largest 32-bit index, which no page has. */
  lemma LinkReadsBack(link: Option<nat>)
    requires link.Some? ==> link.value < 0xFFFF_FFFF
    ensures LinkOf(RawLink(link)) == link && RawLink(link) < 0x1_0000_0000
  {
  }
}
