/** The pool refines a plain map from pages to bytes: wherever the bytes of a page lie, in a frame, in
    a flush in flight or on disk, they are the ones last written. */
module PoolCoherence {
  import opened Bytes
  import opened Outcomes
  import opened PoolModel
  import opened PoolInvariant

  /** The bytes of a page, wherever they lie. */
  function CurrentBytes(s: Pool, p: PageId): Data
    requires PageOk(s, p) && p in s.disk
  {
    if p in s.flushes then s.ops[s.flushes[p].owner].victim.value.copy
    else if p in s.table && p !in s.fetches then s.frames[s.table[p]].data
    else s.disk[p]
  }

  /** The page has bytes: it is allocated, and if the pool created it, it has been written. */
  predicate HasBytes(s: Pool, p: PageId) { p in s.disk && p !in s.unwritten }

  predicate WritesTo(s: Pool, step: Step, p: PageId)
    requires Enabled(s, step)
  {
    step.WriteMarked? && s.ops[step.id].page == p
  }

  /** A step changes the bytes of a page only by writing them through a guard. */
  ghost predicate Refines(s: Pool, step: Step, s': Pool, p: PageId)
    requires Enabled(s, step) && PageOk(s, p) && PageOk(s', p)
  {
    && (HasBytes(s', p) <==> HasBytes(s, p) || WritesTo(s, step, p))
    && (HasBytes(s', p) ==>
          CurrentBytes(s', p) == if WritesTo(s, step, p) then step.bytes else CurrentBytes(s, p))
  }

  lemma MissRefines(s: Pool, step: Step, s': Pool, p: PageId)
    requires step.Miss? && Enabled(s, step) && s' == Next(s, step) && PageOk(s, p) && PageOk(s', p)
    requires Takeable(s, step.page, step.frame)
    ensures Refines(s, step, s', p)
  {
  }

  lemma CreateRefines(s: Pool, step: Step, s': Pool, p: PageId)
    requires step.CreatePage? && Enabled(s, step) && s' == Next(s, step) && PageOk(s, p) && PageOk(s', p)
    requires Takeable(s, step.page, step.frame)
    ensures Refines(s, step, s', p)
  {
  }

  lemma PublishRefines(s: Pool, step: Step, s': Pool, p: PageId)
    requires step.Publish? && Enabled(s, step) && s' == Next(s, step) && PageOk(s, p) && PageOk(s', p)
    requires OpOk(s, step.id) && PageOk(s, s.ops[step.id].page)
    ensures Refines(s, step, s', p)
  {
  }

  lemma EndFlushRefines(s: Pool, step: Step, s': Pool, p: PageId)
    requires step.EndFlush? && Enabled(s, step) && s' == Next(s, step) && PageOk(s, p) && PageOk(s', p)
    requires OpOk(s, step.id)
    ensures Refines(s, step, s', p)
  {
  }

  lemma WriteFlushRefines(s: Pool, step: Step, s': Pool, p: PageId)
    requires step.WriteFlush? && Enabled(s, step) && s' == Next(s, step) && PageOk(s, p) && PageOk(s', p)
    requires OpOk(s, step.id)
    ensures Refines(s, step, s', p)
  {
  }

  lemma WriteRefines(s: Pool, step: Step, s': Pool, p: PageId)
    requires step.WriteMarked? && Enabled(s, step) && s' == Next(s, step) && PageOk(s, p) && PageOk(s', p)
    requires OpOk(s, step.id) && PageOk(s, s.ops[step.id].page)
    ensures Refines(s, step, s', p)
  {
  }

  /** Nothing that bears on the bytes of page `p` changed. */
  predicate BytesKept(s: Pool, s': Pool, p: PageId) {
    && s' == s.(ops := s'.ops, fetches := s'.fetches, flushes := s'.flushes, delivered := s'.delivered)
    && (p in s'.fetches <==> p in s.fetches) && (p in s'.flushes <==> p in s.flushes)
    && (p in s.flushes ==>
          && s'.flushes[p].owner == s.flushes[p].owner
          && s.flushes[p].owner in s.ops && s.flushes[p].owner in s'.ops
          && s'.ops[s.flushes[p].owner].victim == s.ops[s.flushes[p].owner].victim)
  }

  lemma KeptRefines(s: Pool, step: Step, s': Pool, p: PageId)
    requires Enabled(s, step) && !step.WriteMarked? && PageOk(s, p) && PageOk(s', p) && BytesKept(s, s', p)
    ensures Refines(s, step, s', p)
  {
  }

  lemma FindFetchKeepsBytes(s: Pool, id: OpId, s': Pool, p: PageId)
    requires Enabled(s, FindFetch(id)) && s' == Next(s, FindFetch(id)) && PageOk(s, p)
    ensures BytesKept(s, s', p)
  {
    var page := s.ops[id].page;
    if page in s.fetches {
      SubscribeKeepsBytes(s, id, HitWaiting, s.fetches[page := Subscribe(s.fetches[page], id)], s.flushes, s', p);
    } else {
      SubscribeKeepsBytes(s, id, Pinned, s.fetches, s.flushes, s', p);
    }
  }

  lemma FindFlushKeepsBytes(s: Pool, id: OpId, s': Pool, p: PageId)
    requires Enabled(s, FindFlush(id)) && s' == Next(s, FindFlush(id)) && PageOk(s, p)
    ensures BytesKept(s, s', p)
  {
    var page := s.ops[id].page;
    if page in s.flushes {
      SubscribeKeepsBytes(s, id, MissWaiting, s.fetches, s.flushes[page := Subscribe(s.flushes[page], id)], s', p);
    } else {
      SubscribeKeepsBytes(s, id, MissReading, s.fetches, s.flushes, s', p);
    }
  }

  lemma SubscribeKeepsBytes(s: Pool, id: OpId, phase: Phase, fetches: map<PageId, Channel>,
                            flushes: map<PageId, Channel>, s': Pool, p: PageId)
    requires id in s.ops && s' == MoveTo(s, id, phase).(fetches := fetches, flushes := flushes) && PageOk(s, p)
    requires p in fetches <==> p in s.fetches
    requires (p in flushes <==> p in s.flushes) && (p in flushes ==> flushes[p].owner == s.flushes[p].owner)
    ensures BytesKept(s, s', p)
  {
  }

  /** Waking, reading into the buffer and taking the lock leave all bytes where they are. */
  lemma MoveKeepsBytes(s: Pool, step: Step, s': Pool, p: PageId)
    requires step.WakeFetched? || step.WakeFlushed? || step.ReadDisk? || step.Acquire?
    requires Enabled(s, step) && s' == Next(s, step) && PageOk(s, p)
    ensures BytesKept(s, s', p)
  {
  }

  /** Pinning and unpinning leave all bytes where they are. */
  lemma PinRefines(s: Pool, step: Step, s': Pool, p: PageId)
    requires (step.Hit? || step.Drop?) && Enabled(s, step) && s' == Next(s, step) && PageOk(s, p) && PageOk(s', p)
    ensures Refines(s, step, s', p)
  {
  }

  /** Every step either writes one page through its guard or leaves the bytes of every page. */
  lemma StepRefines(s: Pool, step: Step, s': Pool, p: PageId)
    requires Invariant(s) && Enabled(s, step) && s' == Next(s, step)
    ensures Invariant(s') && Refines(s, step, s', p)
  {
    StepKeeps(s, step);
    SoundStepRefines(s, step, s', p);
  }

  lemma SoundStepRefines(s: Pool, step: Step, s': Pool, p: PageId)
    requires Invariant(s) && Enabled(s, step) && s' == Next(s, step) && PageOk(s, p) && PageOk(s', p)
    ensures Refines(s, step, s', p)
  {
    if step.Publish? || step.WriteFlush? || step.EndFlush? || step.WriteMarked? {
      ByteStepRefines(s, step, s', p);
    } else if step.Hit? || step.Miss? || step.CreatePage? || step.Drop? {
      FrameStepRefines(s, step, s', p);
    } else {
      MoveStepKeepsBytes(s, step, s', p);
      KeptRefines(s, step, s', p);
    }
  }

  lemma FrameStepRefines(s: Pool, step: Step, s': Pool, p: PageId)
    requires step.Hit? || step.Miss? || step.CreatePage? || step.Drop?
    requires Invariant(s) && Enabled(s, step) && s' == Next(s, step) && PageOk(s, p) && PageOk(s', p)
    ensures Refines(s, step, s', p)
  {
    match step
    case Miss(_, _, page, f) => TakeableIf(s, page, f); MissRefines(s, step, s', p);
    case CreatePage(_, page, f) => NewPageTakeable(s, page, f); CreateRefines(s, step, s', p);
    case _ => PinRefines(s, step, s', p);
  }

  lemma MoveStepKeepsBytes(s: Pool, step: Step, s': Pool, p: PageId)
    requires step.FindFetch? || step.FindFlush? || step.WakeFetched? || step.WakeFlushed? || step.ReadDisk?
             || step.Acquire?
    requires Enabled(s, step) && s' == Next(s, step) && PageOk(s, p)
    ensures BytesKept(s, s', p)
  {
    match step
    case FindFetch(id) => FindFetchKeepsBytes(s, id, s', p);
    case FindFlush(id) => FindFlushKeepsBytes(s, id, s', p);
    case _ => MoveKeepsBytes(s, step, s', p);
  }

  lemma ByteStepRefines(s: Pool, step: Step, s': Pool, p: PageId)
    requires step.Publish? || step.WriteFlush? || step.EndFlush? || step.WriteMarked?
    requires Invariant(s) && Enabled(s, step) && s' == Next(s, step) && PageOk(s, p) && PageOk(s', p)
    ensures Refines(s, step, s', p)
  {
    assert OpOk(s, step.id) && PageOk(s, s.ops[step.id].page);
    match step
    case Publish(_) => PublishRefines(s, step, s', p);
    case WriteFlush(_) => WriteFlushRefines(s, step, s', p);
    case EndFlush(_) => EndFlushRefines(s, step, s', p);
    case WriteMarked(_, _) => WriteRefines(s, step, s', p);
  }

  lemma NewPageTakeable(s: Pool, page: PageId, f: int)
    requires Invariant(s) && CanTake(s, f) && page !in s.disk
    ensures Takeable(s, page, f)
  {
    assert PageOk(s, page);
    TakeableIf(s, page, f);
  }

  /** What an operation that holds a guard sees in its frame. */
  lemma GuardSees(s: Pool, id: OpId)
    requires Invariant(s) && At(s, id, Holding) && s.ops[id].page !in s.unwritten
    ensures var o := s.ops[id];
            && 0 <= o.frame < |s.frames| && s.frames[o.frame].page == Some(o.page)
            && HasBytes(s, o.page) && PageOk(s, o.page)
            && s.frames[o.frame].data == CurrentBytes(s, o.page)
  {
    assert OpOk(s, id) && PageOk(s, s.ops[id].page);
  }

  // ---------------------------------------------------------------- runs

  /** The state after a run, None when one of its steps was not possible. */
  function Run(s: Pool, steps: seq<Step>): Option<Pool> {
    if steps == [] then Some(s)
    else
      match Run(s, steps[..|steps| - 1])
      case None => None
      case Some(m) => if Enabled(m, steps[|steps| - 1]) then Some(Next(m, steps[|steps| - 1])) else None
  }

  /** The bytes last written to a page in a run: those on disk before it, until a guard writes. */
  function LastWritten(s: Pool, steps: seq<Step>, p: PageId): Option<Data>
    requires Run(s, steps).Some?
  {
    if steps == [] then (if p in s.disk then Some(s.disk[p]) else None)
    else
      var before, step := steps[..|steps| - 1], steps[|steps| - 1];
      if WritesTo(Run(s, before).value, step, p) then Some(step.bytes) else LastWritten(s, before, p)
  }

  lemma {:induction false} RunIsCoherent(size: nat, disk: map<PageId, Data>, steps: seq<Step>, s: Pool, p: PageId)
    requires Run(NewPool(size, disk), steps) == Some(s)
    ensures Invariant(s) && PageOk(s, p)
    ensures LastWritten(NewPool(size, disk), steps, p) == if HasBytes(s, p) then Some(CurrentBytes(s, p)) else None
  {
    if steps == [] {
      NewPoolIsSound(size, disk);
      assert PageOk(s, p);
    } else {
      var before, step := steps[..|steps| - 1], steps[|steps| - 1];
      var m := Run(NewPool(size, disk), before).value;
      RunIsCoherent(size, disk, before, m, p);
      StepRefines(m, step, s, p);
    }
  }

  /** Over every interleaving, a guard on a page sees exactly the bytes last written to the page. */
  lemma GuardsSeeLastWritten(size: nat, disk: map<PageId, Data>, steps: seq<Step>, s: Pool, id: OpId)
    requires Run(NewPool(size, disk), steps) == Some(s)
    requires At(s, id, Holding) && s.ops[id].page !in s.unwritten
    ensures 0 <= s.ops[id].frame < |s.frames|
    ensures LastWritten(NewPool(size, disk), steps, s.ops[id].page) == Some(s.frames[s.ops[id].frame].data)
  {
    RunIsCoherent(size, disk, steps, s, s.ops[id].page);
    GuardSees(s, id);
  }

  // ---------------------------------------------------------------- where the code needs its callers

  /** A created page starts with whatever its frame held: zeros in a frame never used, the bytes of
      the evicted page otherwise. Its guard then agrees with the zero page on disk only if those
      bytes were zero. */
  lemma CreatorSees(s: Pool, step: Step, s': Pool)
    requires Invariant(s) && step.CreatePage? && Enabled(s, step) && s' == Next(s, step)
    ensures var seen := s'.frames[step.frame].data;
            && s'.disk[step.page] == ZeroPage()
            && (s.free != [] ==> seen == ZeroPage())
            && (s.free == [] ==>
                  && s.frames[step.frame].page.Some?
                  && var q := s.frames[step.frame].page.value;
                     PageOk(s, q) && HasBytes(s, q) && seen == CurrentBytes(s, q))
  {
    assert PageOk(s, step.page);
    TakeableIf(s, step.page, step.frame);
    if s.free == [] { assert PageOk(s, s.frames[step.frame].page.value); }
  }

  /** A write through a guard without `mark_dirty`. */
  function WriteUnmarked(s: Pool, id: OpId, bytes: Data): Pool
    requires id in s.ops && 0 <= s.ops[id].frame < |s.frames|
  {
    var f := s.ops[id].frame;
    s.(frames := s.frames[f := s.frames[f].(data := bytes)])
  }

  /** A write that is not marked is safe exactly when the frame is dirty already or the bytes are those
      on disk. */
  lemma UnmarkedWriteSafe(s: Pool, id: OpId, bytes: Data)
    requires Invariant(s) && At(s, id, Holding) && s.ops[id].page !in s.unwritten
    ensures 0 <= s.ops[id].frame < |s.frames| && s.ops[id].page in s.disk
    ensures Invariant(WriteUnmarked(s, id, bytes)) <==>
            s.frames[s.ops[id].frame].dirty || bytes == s.disk[s.ops[id].page]
  {
    assert OpOk(s, id) && PageOk(s, s.ops[id].page);
    var s', f := WriteUnmarked(s, id, bytes), s.ops[id].frame;
    UnmarkedFrame(s, id, bytes, f);
    if s.frames[f].dirty || bytes == s.disk[s.ops[id].page] {
      forall j | j in s'.ops ensures OpOk(s', j) { UnmarkedOp(s, id, bytes, j); }
      forall i, j | i in s'.ops && j in s'.ops && i != j ensures PairOk(s', i, j) { assert PairOk(s, i, j); }
      forall g | 0 <= g < |s'.frames| ensures FrameOk(s', g) { UnmarkedFrame(s, id, bytes, g); }
      forall p ensures PageOk(s', p) { UnmarkedPage(s, id, bytes, p); }
      Together(s');
    } else {
      assert !FrameOk(s', f);
    }
  }

  lemma UnmarkedFrame(s: Pool, id: OpId, bytes: Data, g: int)
    requires id in s.ops && OpOk(s, id) && PageOk(s, s.ops[id].page) && At(s, id, Holding)
    requires s.ops[id].page !in s.unwritten
    requires 0 <= g < |s.frames| && FrameOk(s, g)
    ensures FrameOk(WriteUnmarked(s, id, bytes), g) <==>
            g != s.ops[id].frame || s.frames[g].dirty || bytes == s.disk[s.ops[id].page]
  {
  }

  lemma UnmarkedOp(s: Pool, id: OpId, bytes: Data, j: OpId)
    requires id in s.ops && 0 <= s.ops[id].frame < |s.frames| && j in s.ops && OpOk(s, j)
    ensures OpOk(WriteUnmarked(s, id, bytes), j)
  {
  }

  lemma UnmarkedPage(s: Pool, id: OpId, bytes: Data, p: PageId)
    requires id in s.ops && 0 <= s.ops[id].frame < |s.frames| && PageOk(s, p)
    ensures PageOk(WriteUnmarked(s, id, bytes), p)
  {
  }
}
