/** Every step of the pool keeps its invariant. */
module PoolInvariant {
  import opened Bytes
  import opened Outcomes
  import opened PoolModel

  lemma NewPoolIsSound(size: nat, disk: map<PageId, Data>)
    ensures Invariant(NewPool(size, disk))
  {
    var s := NewPool(size, disk);
    forall f | 0 <= f < size ensures FrameOk(s, f) {
      assert s.free[f] == f;
      assert OpsOn(s.ops, f) == {};
    }
  }

  /** The same operations on the same frames. */
  ghost predicate SameOps(a: map<OpId, Op>, b: map<OpId, Op>) {
    && (forall i :: i in a <==> i in b)
    && forall i :: i in a && i in b ==> a[i].frame == b[i].frame
  }

  lemma SameOpsOn(a: map<OpId, Op>, b: map<OpId, Op>, f: int)
    requires SameOps(a, b)
    ensures OpsOn(a, f) == OpsOn(b, f)
  {
    assert forall i :: i in OpsOn(a, f) <==> i in OpsOn(b, f);
  }

  lemma OpAdded(ops: map<OpId, Op>, id: OpId, o: Op, f: int)
    requires id !in ops
    ensures OpsOn(ops[id := o], f) == if f == o.frame then OpsOn(ops, f) + {id} else OpsOn(ops, f)
    ensures |OpsOn(ops[id := o], f)| == |OpsOn(ops, f)| + if f == o.frame then 1 else 0
  {
    var ops' := ops[id := o];
    forall i ensures i in OpsOn(ops', f) <==> i in OpsOn(ops, f) || (i == id && f == o.frame) {}
  }

  lemma OpRemoved(ops: map<OpId, Op>, id: OpId, f: int)
    requires id in ops
    ensures |OpsOn(ops - {id}, f)| == |OpsOn(ops, f)| - if f == ops[id].frame then 1 else 0
  {
    var rest := ops - {id};
    OpAdded(rest, id, ops[id], f);
    assert rest[id := ops[id]] == ops;
  }

  /** The parts of the invariant, put together. */
  lemma Together(s: Pool)
    requires FreeOk(s)
    requires forall id :: id in s.ops ==> OpOk(s, id)
    requires forall i, j :: i in s.ops && j in s.ops && i != j ==> PairOk(s, i, j)
    requires forall f :: 0 <= f < |s.frames| ==> FrameOk(s, f)
    requires forall page :: PageOk(s, page)
    ensures Invariant(s)
  {
  }

  // ---------------------------------------------------------------- moving one operation on

  /** One operation went on to another phase, having taken its message if it was waiting, and nothing
      else changed. */
  ghost predicate Moved(s: Pool, id: OpId, phase: Phase, s': Pool) {
    && id in s.ops && s' == MoveTo(s, id, phase).(delivered := s.delivered - {id})
    && OpOk(s', id)
    && var o, o' := s.ops[id], s'.ops[id];
       && !o.phase.Holding? && !phase.HitWaiting? && !phase.MissWaiting?
       && (o.phase.HitWaiting? || o.phase.MissWaiting? ==> id in s.delivered)
       && Missing(o') == Missing(o) && (Claiming(o') ==> Claiming(o))
       && (Locks(o') ==> Locks(o) || CanLock(s, id, LocksToWrite(o')))
       && (LocksToWrite(o') ==> LocksToWrite(o) || CanLock(s, id, true))
  }

  lemma MovedOp(s: Pool, id: OpId, phase: Phase, s': Pool, j: OpId)
    requires Moved(s, id, phase, s') && j in s.ops && OpOk(s, j)
    ensures j in s'.ops && OpOk(s', j)
  {
  }

  lemma MovedPair(s: Pool, id: OpId, phase: Phase, s': Pool, i: OpId, j: OpId)
    requires Moved(s, id, phase, s') && i in s.ops && j in s.ops && i != j && PairOk(s, i, j)
    ensures i in s'.ops && j in s'.ops && PairOk(s', i, j)
  {
  }

  lemma MovedFrame(s: Pool, id: OpId, phase: Phase, s': Pool, f: int)
    requires Moved(s, id, phase, s') && 0 <= f < |s.frames| && FrameOk(s, f)
    ensures f < |s'.frames| && FrameOk(s', f)
  {
    SameOpsOn(s.ops, s'.ops, f);
  }

  lemma MovedPage(s: Pool, id: OpId, phase: Phase, s': Pool, p: PageId)
    requires Moved(s, id, phase, s') && PageOk(s, p) && OpOk(s, id)
    ensures PageOk(s', p)
  {
  }

  lemma MovedKeeps(s: Pool, id: OpId, phase: Phase, s': Pool)
    requires Invariant(s) && Moved(s, id, phase, s')
    ensures Invariant(s')
  {
    forall j | j in s'.ops ensures OpOk(s', j) { MovedOp(s, id, phase, s', j); }
    forall i, j | i in s'.ops && j in s'.ops && i != j ensures PairOk(s', i, j) { MovedPair(s, id, phase, s', i, j); }
    forall f | 0 <= f < |s'.frames| ensures FrameOk(s', f) { MovedFrame(s, id, phase, s', f); }
    forall p ensures PageOk(s', p) { MovedPage(s, id, phase, s', p); }
    Together(s');
  }

  lemma FindFetchKeeps(s: Pool, id: OpId, s': Pool)
    requires Invariant(s) && Enabled(s, FindFetch(id)) && s.ops[id].page !in s.fetches && s' == Next(s, FindFetch(id))
    ensures Invariant(s')
  {
    assert OpOk(s, id);
    assert s.delivered - {id} == s.delivered;
    assert OpOk(s', id);
    MovedKeeps(s, id, Pinned, s');
  }

  lemma WakeFetchedKeeps(s: Pool, id: OpId, s': Pool)
    requires Invariant(s) && Enabled(s, WakeFetched(id)) && s' == Next(s, WakeFetched(id))
    ensures Invariant(s')
  {
    assert OpOk(s, id);
    assert OpOk(s', id);
    MovedKeeps(s, id, Pinned, s');
  }

  lemma FindFlushKeeps(s: Pool, id: OpId, s': Pool)
    requires Invariant(s) && Enabled(s, FindFlush(id)) && s.ops[id].page !in s.flushes && s' == Next(s, FindFlush(id))
    ensures Invariant(s')
  {
    assert OpOk(s, id);
    assert s.delivered - {id} == s.delivered;
    assert OpOk(s', id);
    MovedKeeps(s, id, MissReading, s');
  }

  lemma WakeFlushedKeeps(s: Pool, id: OpId, s': Pool)
    requires Invariant(s) && Enabled(s, WakeFlushed(id)) && s' == Next(s, WakeFlushed(id))
    ensures Invariant(s')
  {
    assert OpOk(s, id);
    assert OpOk(s', id);
    MovedKeeps(s, id, MissReading, s');
  }

  lemma ReadDiskKeeps(s: Pool, id: OpId, s': Pool)
    requires Invariant(s) && Enabled(s, ReadDisk(id)) && s' == Next(s, ReadDisk(id))
    ensures Invariant(s')
  {
    assert OpOk(s, id);
    assert s.delivered - {id} == s.delivered;
    assert OpOk(s', id);
    MovedKeeps(s, id, MissLoaded(s.disk[s.ops[id].page]), s');
  }

  lemma AcquireKeeps(s: Pool, id: OpId, s': Pool)
    requires Invariant(s) && Enabled(s, Acquire(id)) && s' == Next(s, Acquire(id))
    ensures Invariant(s')
  {
    assert OpOk(s, id);
    assert s.delivered - {id} == s.delivered;
    assert OpOk(s', id);
    MovedKeeps(s, id, Holding, s');
  }

  // ---------------------------------------------------------------- subscribing

  ghost predicate FetchAwaited(s: Pool, id: OpId, s': Pool) {
    Enabled(s, FindFetch(id)) && s.ops[id].page in s.fetches && s' == Next(s, FindFetch(id))
  }

  lemma FetchAwaitedOp(s: Pool, id: OpId, s': Pool, j: OpId)
    requires FetchAwaited(s, id, s') && j in s.ops && OpOk(s, j) && OpOk(s, id)
    ensures j in s'.ops && OpOk(s', j)
  {
  }

  lemma FetchAwaitedPair(s: Pool, id: OpId, s': Pool, i: OpId, j: OpId)
    requires FetchAwaited(s, id, s') && i in s.ops && j in s.ops && i != j && PairOk(s, i, j)
    ensures i in s'.ops && j in s'.ops && PairOk(s', i, j)
  {
  }

  lemma FetchAwaitedFrame(s: Pool, id: OpId, s': Pool, f: int)
    requires FetchAwaited(s, id, s') && 0 <= f < |s.frames| && FrameOk(s, f)
    ensures f < |s'.frames| && FrameOk(s', f)
  {
    SameOpsOn(s.ops, s'.ops, f);
  }

  lemma FetchAwaitedPage(s: Pool, id: OpId, s': Pool, p: PageId)
    requires FetchAwaited(s, id, s') && PageOk(s, p) && OpOk(s, id)
    ensures PageOk(s', p)
  {
  }

  lemma FetchAwaitedKeeps(s: Pool, id: OpId, s': Pool)
    requires Invariant(s) && FetchAwaited(s, id, s')
    ensures Invariant(s')
  {
    forall j | j in s'.ops ensures OpOk(s', j) { FetchAwaitedOp(s, id, s', j); }
    forall i, j | i in s'.ops && j in s'.ops && i != j ensures PairOk(s', i, j) { FetchAwaitedPair(s, id, s', i, j); }
    forall f | 0 <= f < |s'.frames| ensures FrameOk(s', f) { FetchAwaitedFrame(s, id, s', f); }
    forall p ensures PageOk(s', p) { FetchAwaitedPage(s, id, s', p); }
    Together(s');
  }

  ghost predicate FlushAwaited(s: Pool, id: OpId, s': Pool) {
    Enabled(s, FindFlush(id)) && s.ops[id].page in s.flushes && s' == Next(s, FindFlush(id))
  }

  lemma FlushAwaitedOp(s: Pool, id: OpId, s': Pool, j: OpId)
    requires FlushAwaited(s, id, s') && j in s.ops && OpOk(s, j) && OpOk(s, id)
    ensures j in s'.ops && OpOk(s', j)
  {
  }

  lemma FlushAwaitedPair(s: Pool, id: OpId, s': Pool, i: OpId, j: OpId)
    requires FlushAwaited(s, id, s') && i in s.ops && j in s.ops && i != j && PairOk(s, i, j)
    ensures i in s'.ops && j in s'.ops && PairOk(s', i, j)
  {
  }

  lemma FlushAwaitedFrame(s: Pool, id: OpId, s': Pool, f: int)
    requires FlushAwaited(s, id, s') && 0 <= f < |s.frames| && FrameOk(s, f)
    ensures f < |s'.frames| && FrameOk(s', f)
  {
    SameOpsOn(s.ops, s'.ops, f);
  }

  lemma FlushAwaitedPage(s: Pool, id: OpId, s': Pool, p: PageId)
    requires FlushAwaited(s, id, s') && PageOk(s, p) && OpOk(s, id)
    ensures PageOk(s', p)
  {
  }

  lemma FlushAwaitedKeeps(s: Pool, id: OpId, s': Pool)
    requires Invariant(s) && FlushAwaited(s, id, s')
    ensures Invariant(s')
  {
    forall j | j in s'.ops ensures OpOk(s', j) { FlushAwaitedOp(s, id, s', j); }
    forall i, j | i in s'.ops && j in s'.ops && i != j ensures PairOk(s', i, j) { FlushAwaitedPair(s, id, s', i, j); }
    forall f | 0 <= f < |s'.frames| ensures FrameOk(s', f) { FlushAwaitedFrame(s, id, s', f); }
    forall p ensures PageOk(s', p) { FlushAwaitedPage(s, id, s', p); }
    Together(s');
  }

  // ---------------------------------------------------------------- publishing a fetch

  ghost predicate Published(s: Pool, id: OpId, s': Pool) {
    && Enabled(s, Publish(id)) && s' == Next(s, Publish(id))
    && OpOk(s, id) && PageOk(s, s.ops[id].page)
  }

  lemma PublishedOp(s: Pool, id: OpId, s': Pool, j: OpId)
    requires Published(s, id, s') && j in s.ops && OpOk(s, j)
    ensures j in s'.ops && OpOk(s', j)
  {
  }

  lemma PublishedPair(s: Pool, id: OpId, s': Pool, i: OpId, j: OpId)
    requires Published(s, id, s') && i in s.ops && j in s.ops && i != j && PairOk(s, i, j)
    ensures i in s'.ops && j in s'.ops && PairOk(s', i, j)
  {
  }

  lemma PublishedFrame(s: Pool, id: OpId, s': Pool, f: int)
    requires Published(s, id, s') && 0 <= f < |s.frames| && FrameOk(s, f)
    ensures f < |s'.frames| && FrameOk(s', f)
  {
    SameOpsOn(s.ops, s'.ops, f);
  }

  lemma PublishedPage(s: Pool, id: OpId, s': Pool, p: PageId)
    requires Published(s, id, s') && PageOk(s, p)
    ensures PageOk(s', p)
  {
  }

  lemma PublishKeeps(s: Pool, id: OpId, s': Pool)
    requires Invariant(s) && Enabled(s, Publish(id)) && s' == Next(s, Publish(id))
    ensures Invariant(s')
  {
    assert OpOk(s, id) && PageOk(s, s.ops[id].page);
    forall j | j in s'.ops ensures OpOk(s', j) { PublishedOp(s, id, s', j); }
    forall i, j | i in s'.ops && j in s'.ops && i != j ensures PairOk(s', i, j) { PublishedPair(s, id, s', i, j); }
    forall f | 0 <= f < |s'.frames| ensures FrameOk(s', f) { PublishedFrame(s, id, s', f); }
    forall p ensures PageOk(s', p) { PublishedPage(s, id, s', p); }
    Together(s');
  }

  // ---------------------------------------------------------------- flushing a victim

  ghost predicate FlushWrote(s: Pool, id: OpId, s': Pool) {
    && Enabled(s, WriteFlush(id)) && s' == Next(s, WriteFlush(id))
    && OpOk(s, id) && PageOk(s, s.ops[id].victim.value.page)
  }

  lemma FlushWroteOp(s: Pool, id: OpId, s': Pool, j: OpId)
    requires FlushWrote(s, id, s') && j in s.ops && OpOk(s, j)
    ensures j in s'.ops && OpOk(s', j)
  {
  }

  lemma FlushWrotePair(s: Pool, id: OpId, s': Pool, i: OpId, j: OpId)
    requires FlushWrote(s, id, s') && i in s.ops && j in s.ops && i != j && PairOk(s, i, j)
    ensures i in s'.ops && j in s'.ops && PairOk(s', i, j)
  {
  }

  lemma FlushWroteFrame(s: Pool, id: OpId, s': Pool, f: int)
    requires FlushWrote(s, id, s') && 0 <= f < |s.frames| && FrameOk(s, f)
    ensures f < |s'.frames| && FrameOk(s', f)
  {
    SameOpsOn(s.ops, s'.ops, f);
  }

  lemma FlushWrotePage(s: Pool, id: OpId, s': Pool, p: PageId)
    requires FlushWrote(s, id, s') && PageOk(s, p)
    ensures PageOk(s', p)
  {
  }

  lemma WriteFlushKeeps(s: Pool, id: OpId, s': Pool)
    requires Invariant(s) && Enabled(s, WriteFlush(id)) && s' == Next(s, WriteFlush(id))
    ensures Invariant(s')
  {
    assert OpOk(s, id) && PageOk(s, s.ops[id].victim.value.page);
    forall j | j in s'.ops ensures OpOk(s', j) { FlushWroteOp(s, id, s', j); }
    forall i, j | i in s'.ops && j in s'.ops && i != j ensures PairOk(s', i, j) { FlushWrotePair(s, id, s', i, j); }
    forall f | 0 <= f < |s'.frames| ensures FrameOk(s', f) { FlushWroteFrame(s, id, s', f); }
    forall p ensures PageOk(s', p) { FlushWrotePage(s, id, s', p); }
    Together(s');
  }

  ghost predicate FlushEnded(s: Pool, id: OpId, s': Pool) {
    && Enabled(s, EndFlush(id)) && s' == Next(s, EndFlush(id))
    && OpOk(s, id) && PageOk(s, s.ops[id].victim.value.page)
  }

  lemma FlushEndedOp(s: Pool, id: OpId, s': Pool, j: OpId)
    requires FlushEnded(s, id, s') && j in s.ops && OpOk(s, j)
    ensures j in s'.ops && OpOk(s', j)
  {
  }

  lemma FlushEndedPair(s: Pool, id: OpId, s': Pool, i: OpId, j: OpId)
    requires FlushEnded(s, id, s') && i in s.ops && j in s.ops && i != j && PairOk(s, i, j)
    ensures i in s'.ops && j in s'.ops && PairOk(s', i, j)
  {
  }

  lemma FlushEndedFrame(s: Pool, id: OpId, s': Pool, f: int)
    requires FlushEnded(s, id, s') && 0 <= f < |s.frames| && FrameOk(s, f)
    ensures f < |s'.frames| && FrameOk(s', f)
  {
    SameOpsOn(s.ops, s'.ops, f);
  }

  lemma FlushEndedPage(s: Pool, id: OpId, s': Pool, p: PageId)
    requires FlushEnded(s, id, s') && PageOk(s, p)
    ensures PageOk(s', p)
  {
  }

  lemma EndFlushKeeps(s: Pool, id: OpId, s': Pool)
    requires Invariant(s) && Enabled(s, EndFlush(id)) && s' == Next(s, EndFlush(id))
    ensures Invariant(s')
  {
    assert OpOk(s, id) && PageOk(s, s.ops[id].victim.value.page);
    forall j | j in s'.ops ensures OpOk(s', j) { FlushEndedOp(s, id, s', j); }
    forall i, j | i in s'.ops && j in s'.ops && i != j ensures PairOk(s', i, j) { FlushEndedPair(s, id, s', i, j); }
    forall f | 0 <= f < |s'.frames| ensures FrameOk(s', f) { FlushEndedFrame(s, id, s', f); }
    forall p ensures PageOk(s', p) { FlushEndedPage(s, id, s', p); }
    assert FreeOk(s');
    Together(s');
  }

  // ---------------------------------------------------------------- guards

  ghost predicate Wrote(s: Pool, id: OpId, bytes: Data, s': Pool) {
    Enabled(s, WriteMarked(id, bytes)) && s' == Next(s, WriteMarked(id, bytes)) && OpOk(s, id)
        && PageOk(s, s.ops[id].page)
  }

  lemma WroteOp(s: Pool, id: OpId, bytes: Data, s': Pool, j: OpId)
    requires Wrote(s, id, bytes, s') && j in s.ops && OpOk(s, j)
    ensures j in s'.ops && OpOk(s', j)
  {
  }

  lemma WroteFrame(s: Pool, id: OpId, bytes: Data, s': Pool, f: int)
    requires Wrote(s, id, bytes, s') && 0 <= f < |s.frames| && FrameOk(s, f)
    ensures f < |s'.frames| && FrameOk(s', f)
  {
  }

  lemma WrotePage(s: Pool, id: OpId, bytes: Data, s': Pool, p: PageId)
    requires Wrote(s, id, bytes, s') && PageOk(s, p)
    ensures PageOk(s', p)
  {
  }

  lemma WriteMarkedKeeps(s: Pool, id: OpId, bytes: Data, s': Pool)
    requires Invariant(s) && Enabled(s, WriteMarked(id, bytes)) && s' == Next(s, WriteMarked(id, bytes))
    ensures Invariant(s')
  {
    assert OpOk(s, id) && PageOk(s, s.ops[id].page);
    forall j | j in s'.ops ensures OpOk(s', j) { WroteOp(s, id, bytes, s', j); }
    forall i, j | i in s'.ops && j in s'.ops && i != j ensures PairOk(s', i, j) { assert PairOk(s, i, j); }
    forall f | 0 <= f < |s'.frames| ensures FrameOk(s', f) { WroteFrame(s, id, bytes, s', f); }
    forall p ensures PageOk(s', p) { WrotePage(s, id, bytes, s', p); }
    Together(s');
  }

  ghost predicate Dropped(s: Pool, id: OpId, s': Pool) {
    Enabled(s, Drop(id)) && s' == Next(s, Drop(id)) && OpOk(s, id)
  }

  lemma DroppedOp(s: Pool, id: OpId, s': Pool, j: OpId)
    requires Dropped(s, id, s') && j in s.ops && OpOk(s, j) && j != id
    ensures j in s'.ops && OpOk(s', j)
  {
  }

  lemma DroppedFrame(s: Pool, id: OpId, s': Pool, f: int)
    requires Dropped(s, id, s') && 0 <= f < |s.frames| && FrameOk(s, f)
    ensures f < |s'.frames| && FrameOk(s', f)
  {
    OpRemoved(s.ops, id, f);
  }

  lemma DroppedPage(s: Pool, id: OpId, s': Pool, p: PageId)
    requires Dropped(s, id, s') && PageOk(s, p)
    ensures PageOk(s', p)
  {
  }

  lemma DropKeeps(s: Pool, id: OpId, s': Pool)
    requires Invariant(s) && Enabled(s, Drop(id)) && s' == Next(s, Drop(id))
    ensures Invariant(s')
  {
    assert OpOk(s, id);
    forall j | j in s'.ops ensures OpOk(s', j) { DroppedOp(s, id, s', j); }
    forall i, j | i in s'.ops && j in s'.ops && i != j ensures PairOk(s', i, j) { assert PairOk(s, i, j); }
    forall f | 0 <= f < |s'.frames| ensures FrameOk(s', f) { DroppedFrame(s, id, s', f); }
    forall p ensures PageOk(s', p) { DroppedPage(s, id, s', p); }
    Together(s');
  }

  // ---------------------------------------------------------------- a cached page

  ghost predicate HitPage(s: Pool, id: OpId, kind: Kind, page: PageId, s': Pool) {
    && Enabled(s, Hit(id, kind, page)) && s' == Next(s, Hit(id, kind, page))
    && FreeOk(s) && PageOk(s, page)
  }

  lemma HitOp(s: Pool, id: OpId, kind: Kind, page: PageId, s': Pool, j: OpId)
    requires HitPage(s, id, kind, page, s') && (j in s.ops ==> OpOk(s, j)) && j in s'.ops
    ensures OpOk(s', j)
  {
  }

  lemma HitPair(s: Pool, id: OpId, kind: Kind, page: PageId, s': Pool, i: OpId, j: OpId)
    requires HitPage(s, id, kind, page, s') && i in s'.ops && j in s'.ops && i != j
    requires i in s.ops ==> OpOk(s, i)
    requires i in s.ops && j in s.ops ==> PairOk(s, i, j)
    ensures PairOk(s', i, j)
  {
  }

  lemma HitFrame(s: Pool, id: OpId, kind: Kind, page: PageId, s': Pool, f: int)
    requires HitPage(s, id, kind, page, s') && 0 <= f < |s.frames| && FrameOk(s, f)
    ensures f < |s'.frames| && FrameOk(s', f)
  {
    OpAdded(s.ops, id, s'.ops[id], f);
  }

  lemma HitPageOk(s: Pool, id: OpId, kind: Kind, page: PageId, s': Pool, p: PageId)
    requires HitPage(s, id, kind, page, s') && PageOk(s, p)
    ensures PageOk(s', p)
  {
  }

  lemma HitKeeps(s: Pool, id: OpId, kind: Kind, page: PageId, s': Pool)
    requires Invariant(s) && Enabled(s, Hit(id, kind, page)) && s' == Next(s, Hit(id, kind, page))
    ensures Invariant(s')
  {
    assert PageOk(s, page);
    forall j | j in s'.ops ensures OpOk(s', j) { HitOp(s, id, kind, page, s', j); }
    forall i, j | i in s'.ops && j in s'.ops && i != j ensures PairOk(s', i, j) {
      HitPair(s, id, kind, page, s', i, j);
    }
    forall f | 0 <= f < |s'.frames| ensures FrameOk(s', f) { HitFrame(s, id, kind, page, s', f); }
    forall p ensures PageOk(s', p) { HitPageOk(s, id, kind, page, s', p); }
    assert FreeOk(s');
    Together(s');
  }

  // ---------------------------------------------------------------- a page that is not cached

  /** No operation is on the frame to be taken, on the page it holds, or on the page that comes. */
  ghost predicate Untouched(s: Pool, page: PageId, f: int) {
    && CanTake(s, f) && page !in s.table
    && (forall j :: j in s.ops ==>
          s.ops[j].frame != f && s.ops[j].page != page && s.frames[f].page != Some(s.ops[j].page))
  }

  /** The frame to be taken, and the page it holds: cached there, with nothing in flight. */
  ghost predicate Takeable(s: Pool, page: PageId, f: int) {
    && Untouched(s, page, f) && FreeOk(s) && FrameOk(s, f)
    && page !in s.fetches && page !in s.unwritten
    && match s.frames[f].page
       case None => s.free != []
       case Some(q) =>
         s.free == [] && q != page && q in s.disk && q !in s.fetches && q !in s.flushes && q !in s.unwritten
  }

  lemma NobodyTouches(s: Pool, page: PageId, f: int)
    requires Invariant(s) && CanTake(s, f) && page !in s.table
    ensures Untouched(s, page, f)
  {
    assert FrameOk(s, f);
    assert |OpsOn(s.ops, f)| == 0 by {
      if s.free != [] { assert f in s.free; }
    }
    forall j | j in s.ops
      ensures s.ops[j].frame != f && s.ops[j].page != page && s.frames[f].page != Some(s.ops[j].page)
    {
      assert OpOk(s, j);
      assert j !in OpsOn(s.ops, f);
    }
  }

  lemma TakeableIf(s: Pool, page: PageId, f: int)
    requires Invariant(s) && CanTake(s, f) && page !in s.table
    ensures Takeable(s, page, f)
  {
    NobodyTouches(s, page, f);
    assert FrameOk(s, f) && PageOk(s, page);
    if s.free != [] { assert f in s.free; }
    if s.frames[f].page.Some? { assert PageOk(s, s.frames[f].page.value); }
  }

  /** The last free frame occurs once. */
  lemma PopFree(free: seq<int>, f: int)
    requires free != [] && forall i, j :: 0 <= i < j < |free| ==> free[i] != free[j]
    ensures f in free[..|free| - 1] <==> f in free && f != free[|free| - 1]
  {
  }

  ghost predicate Missed(s: Pool, id: OpId, kind: Kind, page: PageId, f: int, s': Pool) {
    && Enabled(s, Miss(id, kind, page, f)) && s' == Next(s, Miss(id, kind, page, f)) && Takeable(s, page, f)
  }

  lemma MissedOp(s: Pool, id: OpId, kind: Kind, page: PageId, f: int, s': Pool, j: OpId)
    requires Missed(s, id, kind, page, f, s') && j in s.ops && OpOk(s, j)
    ensures j in s'.ops && OpOk(s', j)
  {
  }

  lemma MissedNewOp(s: Pool, id: OpId, kind: Kind, page: PageId, f: int, s': Pool)
    requires Missed(s, id, kind, page, f, s')
    ensures id in s'.ops && OpOk(s', id)
  {
  }

  lemma MissedPair(s: Pool, id: OpId, kind: Kind, page: PageId, f: int, s': Pool, i: OpId, j: OpId)
    requires Missed(s, id, kind, page, f, s') && i in s'.ops && j in s'.ops && i != j
    requires i in s.ops ==> OpOk(s, i)
    requires i in s.ops && j in s.ops ==> PairOk(s, i, j)
    ensures PairOk(s', i, j)
  {
  }

  lemma MissedFrame(s: Pool, id: OpId, kind: Kind, page: PageId, f: int, s': Pool, g: int)
    requires Missed(s, id, kind, page, f, s') && 0 <= g < |s.frames| && FrameOk(s, g)
    ensures g < |s'.frames| && FrameOk(s', g)
  {
    OpAdded(s.ops, id, s'.ops[id], g);
    if s.free != [] { PopFree(s.free, g); }
  }

  lemma MissedPage(s: Pool, id: OpId, kind: Kind, page: PageId, f: int, s': Pool, p: PageId)
    requires Missed(s, id, kind, page, f, s') && PageOk(s, p)
    ensures PageOk(s', p)
  {
  }

  lemma MissKeeps(s: Pool, id: OpId, kind: Kind, page: PageId, f: int, s': Pool)
    requires Invariant(s) && Enabled(s, Miss(id, kind, page, f)) && s' == Next(s, Miss(id, kind, page, f))
    ensures Invariant(s')
  {
    TakeableIf(s, page, f);
    MissedNewOp(s, id, kind, page, f, s');
    forall j | j in s'.ops ensures OpOk(s', j) { if j != id { MissedOp(s, id, kind, page, f, s', j); } }
    forall i, j | i in s'.ops && j in s'.ops && i != j ensures PairOk(s', i, j) {
      MissedPair(s, id, kind, page, f, s', i, j);
    }
    forall g | 0 <= g < |s'.frames| ensures FrameOk(s', g) { MissedFrame(s, id, kind, page, f, s', g); }
    forall p ensures PageOk(s', p) { MissedPage(s, id, kind, page, f, s', p); }
    Together(s');
  }

  ghost predicate Created(s: Pool, id: OpId, page: PageId, f: int, s': Pool) {
    && Enabled(s, CreatePage(id, page, f)) && s' == Next(s, CreatePage(id, page, f)) && Takeable(s, page, f)
    && page !in s.flushes
  }

  lemma CreatedOp(s: Pool, id: OpId, page: PageId, f: int, s': Pool, j: OpId)
    requires Created(s, id, page, f, s') && j in s.ops && OpOk(s, j)
    ensures j in s'.ops && OpOk(s', j)
  {
  }

  lemma CreatedNewOp(s: Pool, id: OpId, page: PageId, f: int, s': Pool)
    requires Created(s, id, page, f, s')
    ensures id in s'.ops && OpOk(s', id)
  {
  }

  lemma CreatedPair(s: Pool, id: OpId, page: PageId, f: int, s': Pool, i: OpId, j: OpId)
    requires Created(s, id, page, f, s') && i in s'.ops && j in s'.ops && i != j
    requires i in s.ops ==> OpOk(s, i)
    requires i in s.ops && j in s.ops ==> PairOk(s, i, j)
    ensures PairOk(s', i, j)
  {
  }

  lemma CreatedFrame(s: Pool, id: OpId, page: PageId, f: int, s': Pool, g: int)
    requires Created(s, id, page, f, s') && 0 <= g < |s.frames| && FrameOk(s, g)
    ensures g < |s'.frames| && FrameOk(s', g)
  {
    OpAdded(s.ops, id, s'.ops[id], g);
    if s.free != [] { PopFree(s.free, g); }
  }

  lemma CreatedPage(s: Pool, id: OpId, page: PageId, f: int, s': Pool, p: PageId)
    requires Created(s, id, page, f, s') && PageOk(s, p)
    ensures PageOk(s', p)
  {
  }

  lemma CreateKeeps(s: Pool, id: OpId, page: PageId, f: int, s': Pool)
    requires Invariant(s) && Enabled(s, CreatePage(id, page, f)) && s' == Next(s, CreatePage(id, page, f))
    ensures Invariant(s')
  {
    assert PageOk(s, page);
    TakeableIf(s, page, f);
    CreatedNewOp(s, id, page, f, s');
    forall j | j in s'.ops ensures OpOk(s', j) { if j != id { CreatedOp(s, id, page, f, s', j); } }
    forall i, j | i in s'.ops && j in s'.ops && i != j ensures PairOk(s', i, j) {
      CreatedPair(s, id, page, f, s', i, j);
    }
    forall g | 0 <= g < |s'.frames| ensures FrameOk(s', g) { CreatedFrame(s, id, page, f, s', g); }
    forall p ensures PageOk(s', p) { CreatedPage(s, id, page, f, s', p); }
    Together(s');
  }

  // ---------------------------------------------------------------- all steps

  lemma StepKeeps(s: Pool, step: Step)
    requires Invariant(s) && Enabled(s, step)
    ensures Invariant(Next(s, step))
  {
    var s' := Next(s, step);
    match step
    case Hit(id, kind, page) => HitKeeps(s, id, kind, page, s');
    case Miss(id, kind, page, f) => MissKeeps(s, id, kind, page, f, s');
    case CreatePage(id, page, f) => CreateKeeps(s, id, page, f, s');
    case FindFetch(id) =>
      if s.ops[id].page in s.fetches { FetchAwaitedKeeps(s, id, s'); } else { FindFetchKeeps(s, id, s'); }
    case WakeFetched(id) => WakeFetchedKeeps(s, id, s');
    case FindFlush(id) =>
      if s.ops[id].page in s.flushes { FlushAwaitedKeeps(s, id, s'); } else { FindFlushKeeps(s, id, s'); }
    case WakeFlushed(id) => WakeFlushedKeeps(s, id, s');
    case ReadDisk(id) => ReadDiskKeeps(s, id, s');
    case Publish(id) => PublishKeeps(s, id, s');
    case WriteFlush(id) => WriteFlushKeeps(s, id, s');
    case EndFlush(id) => EndFlushKeeps(s, id, s');
    case Acquire(id) => AcquireKeeps(s, id, s');
    case WriteMarked(id, bytes) => WriteMarkedKeeps(s, id, bytes, s');
    case Drop(id) => DropKeeps(s, id, s');
  }

  // ---------------------------------------------------------------- what the invariant says

  /** No two pages share a frame, and every frame is either free or holds the page the table maps to
      it. */
  lemma TableAndFrames(s: Pool)
    requires Invariant(s)
    ensures forall p, q :: p in s.table && q in s.table && s.table[p] == s.table[q] ==> p == q
    ensures forall p :: p in s.table ==> 0 <= s.table[p] < |s.frames| && s.table[p] !in s.free
    ensures forall f :: 0 <= f < |s.frames| && f !in s.free ==>
              s.frames[f].page.Some? && s.frames[f].page.value in s.table && s.table[s.frames[f].page.value] == f
  {
    forall p | p in s.table ensures TableOk(s, p) && s.table[p] !in s.free {
      assert PageOk(s, p);
      assert FrameOk(s, s.table[p]);
    }
    forall f | 0 <= f < |s.frames| && f !in s.free
      ensures s.frames[f].page.Some? && s.frames[f].page.value in s.table && s.table[s.frames[f].page.value] == f
    {
      assert FrameOk(s, f);
    }
  }

  /** A frame is evictable exactly when it is mapped and no operation is on it, and its pin count is
      the number of operations on it. */
  lemma PinsAndEvictor(s: Pool, f: int)
    requires Invariant(s) && 0 <= f < |s.frames|
    ensures s.frames[f].pin == |OpsOn(s.ops, f)|
    ensures f in s.evictable <==> f !in s.free && forall id :: id in s.ops ==> s.ops[id].frame != f
  {
    assert FrameOk(s, f);
    if f in s.evictable {
      forall id | id in s.ops ensures s.ops[id].frame != f {
        assert id !in OpsOn(s.ops, f);
      }
    }
    if forall id :: id in s.ops ==> s.ops[id].frame != f {
      assert OpsOn(s.ops, f) == {};
    }
  }

  /** Two operations never flush the same page, and never fetch the same page. */
  lemma OneFlushOneFetch(s: Pool, i: OpId, j: OpId)
    requires Invariant(s) && i in s.ops && j in s.ops
    ensures s.ops[i].victim.Some? && s.ops[j].victim.Some? ==>
              s.ops[i].victim.value.page == s.ops[j].victim.value.page ==> i == j
    ensures Missing(s.ops[i]) && Missing(s.ops[j]) && s.ops[i].page == s.ops[j].page ==> i == j
  {
    assert OpOk(s, i) && OpOk(s, j);
  }
}
