/** What the callers of the pool asked for, and what they get for it, over every interleaving. */
module PoolRequests {
  import opened Bytes
  import opened Outcomes
  import opened PoolModel
  import opened PoolInvariant
  import opened PoolCoherence

  // ---------------------------------------------------------------- requests

  datatype Request = Request(kind: Kind, page: PageId)

  /** What a step leaves of a request. */
  function After(step: Step, id: OpId, request: Option<Request>): Option<Request> {
    if step.id != id then request
    else
      match step
      case Hit(_, kind, page) => Some(Request(kind, page))
      case Miss(_, kind, page, _) => Some(Request(kind, page))
      case CreatePage(_, page, _) => Some(Request(Create, page))
      case Drop(_) => None
      case _ => request
  }

  /** What an operation was begun for and has not given back. */
  function RequestOf(steps: seq<Step>, id: OpId): Option<Request> {
    if steps == [] then None else After(steps[|steps| - 1], id, RequestOf(steps[..|steps| - 1], id))
  }

  /** The operation is the one that was asked for. */
  ghost predicate Serves(s: Pool, id: OpId, request: Option<Request>) {
    match request
    case None => id !in s.ops
    case Some(r) => id in s.ops && s.ops[id].kind == r.kind && s.ops[id].page == r.page
  }

  predicate Begins(step: Step) { step.Hit? || step.Miss? || step.CreatePage? }

  lemma BeginServes(s: Pool, step: Step, id: OpId, request: Option<Request>)
    requires Enabled(s, step) && Begins(step) && Serves(s, id, request)
    ensures Serves(Next(s, step), id, After(step, id, request))
  {
  }

  lemma GoOnServes(s: Pool, step: Step, id: OpId, request: Option<Request>)
    requires Enabled(s, step) && !Begins(step) && Serves(s, id, request)
    ensures Serves(Next(s, step), id, After(step, id, request))
  {
  }

  /** Over every run, exactly the requests not given back have an operation, of the kind and on the page
      that was asked for. */
  lemma {:induction false} RunServes(size: nat, disk: map<PageId, Data>, steps: seq<Step>, s: Pool, id: OpId)
    requires Run(NewPool(size, disk), steps) == Some(s)
    ensures Serves(s, id, RequestOf(steps, id))
  {
    if steps != [] {
      var before, step := steps[..|steps| - 1], steps[|steps| - 1];
      var m := Run(NewPool(size, disk), before).value;
      RunServes(size, disk, before, m, id);
      if Begins(step) {
        BeginServes(m, step, id, RequestOf(before, id));
      } else {
        GoOnServes(m, step, id, RequestOf(before, id));
      }
    }
  }

  lemma RunIsSound(size: nat, disk: map<PageId, Data>, steps: seq<Step>, s: Pool)
    requires Run(NewPool(size, disk), steps) == Some(s)
    ensures Invariant(s)
  {
    RunIsCoherent(size, disk, steps, s, PageId(0, 0));
  }

  /** An operation that was begun as `kind` on `page` and holds its guard. */
  ghost predicate Guard(s: Pool, steps: seq<Step>, id: OpId, kind: Kind, page: PageId) {
    RequestOf(steps, id) == Some(Request(kind, page)) && At(s, id, Holding)
  }

  /** A guard can write exactly when writing, or a new page, was asked for. */
  lemma GuardWrites(size: nat, disk: map<PageId, Data>, steps: seq<Step>, s: Pool, id: OpId, kind: Kind, page: PageId,
                    bytes: Data)
    requires Run(NewPool(size, disk), steps) == Some(s) && Guard(s, steps, id, kind, page)
    ensures Enabled(s, WriteMarked(id, bytes)) <==> kind == Write || kind == Create
  {
    RunServes(size, disk, steps, s, id);
    RunIsSound(size, disk, steps, s);
    HolderWrites(s, id, bytes);
  }

  lemma HolderWrites(s: Pool, id: OpId, bytes: Data)
    requires Invariant(s) && At(s, id, Holding)
    ensures Enabled(s, WriteMarked(id, bytes)) <==> s.ops[id].kind == Write || s.ops[id].kind == Create
  {
    assert OpOk(s, id) && PageOk(s, s.ops[id].page);
  }

  // ---------------------------------------------------------------- who may hold a page together

  lemma SamePageSameFrame(s: Pool, i: OpId, j: OpId)
    requires Invariant(s) && i in s.ops && j in s.ops
    ensures s.ops[i].page == s.ops[j].page <==> s.ops[i].frame == s.ops[j].frame
  {
    assert OpOk(s, i) && OpOk(s, j);
    assert PageOk(s, s.ops[i].page) && PageOk(s, s.ops[j].page);
  }

  /** Two guards are on one page only if both were asked for as Read. */
  lemma GuardsShared(size: nat, disk: map<PageId, Data>, steps: seq<Step>, s: Pool, i: OpId, j: OpId, k: Kind, l: Kind,
                     page: PageId)
    requires Run(NewPool(size, disk), steps) == Some(s) && i != j
    requires Guard(s, steps, i, k, page) && Guard(s, steps, j, l, page)
    ensures k == Read && l == Read
  {
    RunServes(size, disk, steps, s, i);
    RunServes(size, disk, steps, s, j);
    RunIsSound(size, disk, steps, s);
    SamePageSameFrame(s, i, j);
    assert PairOk(s, i, j) && PairOk(s, j, i);
  }

  /** A fetch that has filled its frame and is flushing its victim lets nobody have a guard on the page. */
  predicate FlushingFetch(s: Pool, id: OpId, kind: Kind) {
    kind != Create && (At(s, id, Flushing) || At(s, id, FlushWritten))
  }

  /** Operation `j`, begun as `l`, keeps one begun as `k` on the same page from its guard. */
  ghost predicate KeepsOff(s: Pool, j: OpId, l: Kind, k: Kind) {
    (At(s, j, Holding) && !(k == Read && l == Read)) || FlushingFetch(s, j, l)
  }

  /** The same of the operations as they are. */
  ghost predicate Hinders(s: Pool, j: OpId, id: OpId)
    requires id in s.ops
  {
    j != id && j in s.ops && s.ops[j].page == s.ops[id].page && KeepsOff(s, j, s.ops[j].kind, s.ops[id].kind)
  }

  lemma LockIf(s: Pool, id: OpId)
    requires Invariant(s) && At(s, id, Pinned)
    ensures Enabled(s, Acquire(id)) ==> forall j :: !Hinders(s, j, id)
    ensures !Enabled(s, Acquire(id)) ==> exists j :: Hinders(s, j, id)
  {
    forall j | Hinders(s, j, id) ensures !Enabled(s, Acquire(id)) { SamePageSameFrame(s, id, j); }
    if !CanLock(s, id, s.ops[id].kind != Read) {
      var j :| j in s.ops && j != id && s.ops[j].frame == s.ops[id].frame
               && if s.ops[id].kind != Read then Locks(s.ops[j]) else LocksToWrite(s.ops[j]);
      SamePageSameFrame(s, id, j);
      assert Hinders(s, j, id);
    }
  }

  /** An operation that has only the lock to take gets its guard exactly when no other one on the page
      keeps it off: no guard but those of readers beside a reader, and no fetch flushing its victim. */
  lemma GuardGiven(size: nat, disk: map<PageId, Data>, steps: seq<Step>, s: Pool, id: OpId, k: Kind, page: PageId)
    requires Run(NewPool(size, disk), steps) == Some(s)
    requires RequestOf(steps, id) == Some(Request(k, page)) && At(s, id, Pinned)
    ensures Enabled(s, Acquire(id)) <==>
            forall j, l :: j != id && RequestOf(steps, j) == Some(Request(l, page)) ==> !KeepsOff(s, j, l, k)
  {
    RunServes(size, disk, steps, s, id);
    RunIsSound(size, disk, steps, s);
    LockIf(s, id);
    forall j, l | j != id && RequestOf(steps, j) == Some(Request(l, page))
      ensures KeepsOff(s, j, l, k) <==> Hinders(s, j, id)
    {
      RunServes(size, disk, steps, s, j);
    }
    if !Enabled(s, Acquire(id)) {
      var j :| Hinders(s, j, id);
      RunServes(size, disk, steps, s, j);
      assert RequestOf(steps, j) == Some(Request(s.ops[j].kind, page));
    }
  }

  /** While one reader has its guard, another one that has only the lock to take gets its own. */
  lemma ReadersShare(size: nat, disk: map<PageId, Data>, steps: seq<Step>, s: Pool, i: OpId, j: OpId, page: PageId)
    requires Run(NewPool(size, disk), steps) == Some(s) && Guard(s, steps, i, Read, page)
    requires RequestOf(steps, j) == Some(Request(Read, page)) && At(s, j, Pinned)
    ensures Enabled(s, Acquire(j)) && At(Next(s, Acquire(j)), j, Holding) && At(Next(s, Acquire(j)), i, Holding)
  {
    RunServes(size, disk, steps, s, i);
    RunServes(size, disk, steps, s, j);
    RunIsSound(size, disk, steps, s);
    forall l | l in s.ops && l != j && s.ops[l].frame == s.ops[j].frame ensures !LocksToWrite(s.ops[l]) {
      SamePageSameFrame(s, i, j);
      if l != i { assert PairOk(s, l, i); }
    }
  }

  lemma FlushingExcludes(s: Pool, i: OpId, j: OpId)
    requires Invariant(s) && i in s.ops && j in s.ops && s.ops[i].page == s.ops[j].page
    ensures FlushingFetch(s, i, s.ops[i].kind) ==> !At(s, j, Holding)
  {
    SamePageSameFrame(s, i, j);
    if i != j { assert PairOk(s, i, j); }
  }

  /** While a fetch flushes its victim, nobody has a guard on its page. */
  lemma FetchKeepsLock(size: nat, disk: map<PageId, Data>, steps: seq<Step>, s: Pool, i: OpId, j: OpId, k: Kind,
                       l: Kind, page: PageId)
    requires Run(NewPool(size, disk), steps) == Some(s)
    requires RequestOf(steps, i) == Some(Request(k, page)) && FlushingFetch(s, i, k)
    ensures !Guard(s, steps, j, l, page)
  {
    RunServes(size, disk, steps, s, i);
    RunServes(size, disk, steps, s, j);
    RunIsSound(size, disk, steps, s);
    if j in s.ops && s.ops[j].page == page { FlushingExcludes(s, i, j); }
  }

  // ---------------------------------------------------------------- frames

  lemma StepKeepsFrames(s: Pool, step: Step)
    requires Enabled(s, step)
    ensures |Next(s, step).frames| == |s.frames|
  {
    if Begins(step) { BeginKeepsFrames(s, step); } else { GoOnKeepsFrames(s, step); }
  }

  lemma BeginKeepsFrames(s: Pool, step: Step)
    requires Enabled(s, step) && Begins(step)
    ensures |Next(s, step).frames| == |s.frames|
  {
  }

  lemma GoOnKeepsFrames(s: Pool, step: Step)
    requires Enabled(s, step) && !Begins(step)
    ensures |Next(s, step).frames| == |s.frames|
  {
  }

  lemma {:induction false} FramesStay(size: nat, disk: map<PageId, Data>, steps: seq<Step>, s: Pool)
    requires Run(NewPool(size, disk), steps) == Some(s)
    ensures |s.frames| == size
  {
    if steps != [] {
      var before, step := steps[..|steps| - 1], steps[|steps| - 1];
      var m := Run(NewPool(size, disk), before).value;
      FramesStay(size, disk, before, m);
      StepKeepsFrames(m, step);
    }
  }

  ghost predicate Used(s: Pool, f: int) { exists id :: id in s.ops && s.ops[id].frame == f }

  lemma TakeableIsUnused(s: Pool, f: int)
    requires Invariant(s) && CanTake(s, f)
    ensures !Used(s, f)
  {
    PinsAndEvictor(s, f);
    if s.free != [] {
      assert f in s.free;
      TableAndFrames(s);
      forall id | id in s.ops ensures s.ops[id].frame != f { assert OpOk(s, id); }
    }
  }

  lemma UnusedIsTakeable(s: Pool, f: int)
    requires Invariant(s) && 0 <= f < |s.frames| && !Used(s, f)
    ensures exists g :: CanTake(s, g)
  {
    PinsAndEvictor(s, f);
    assert FrameOk(s, f);
    if s.free == [] {
      assert CanTake(s, f);
    } else {
      assert CanTake(s, s.free[|s.free| - 1]);
    }
  }

  /** A fetch or creation finds no frame exactly when each of the `size` frames has an operation on it. */
  lemma FullExactly(size: nat, disk: map<PageId, Data>, steps: seq<Step>, s: Pool)
    requires Run(NewPool(size, disk), steps) == Some(s)
    ensures |s.frames| == size
    ensures (forall f :: !CanTake(s, f)) <==> forall f :: 0 <= f < size ==> Used(s, f)
  {
    FramesStay(size, disk, steps, s);
    RunIsSound(size, disk, steps, s);
    if forall f :: 0 <= f < size ==> Used(s, f) {
      forall f ensures !CanTake(s, f) { if CanTake(s, f) { TakeableIsUnused(s, f); } }
    } else {
      var f :| 0 <= f < size && !Used(s, f);
      UnusedIsTakeable(s, f);
    }
  }

  /** Nothing is evicted while a frame has no page. */
  lemma FreeFramesFirst(size: nat, disk: map<PageId, Data>, steps: seq<Step>, s: Pool, f: int, g: int)
    requires Run(NewPool(size, disk), steps) == Some(s) && CanTake(s, f)
    requires 0 <= g < |s.frames| && s.frames[g].page == None
    ensures s.frames[f].page == None && VictimOf(s, f) == None
  {
    RunIsSound(size, disk, steps, s);
    assert FrameOk(s, g) && FrameOk(s, f);
    assert f in s.free;
  }

  // ---------------------------------------------------------------- dirty frames

  /** A frame is dirty from a marked write through a guard on it until a page is fetched into it. */
  function DirtyAfter(size: nat, disk: map<PageId, Data>, steps: seq<Step>, f: int): bool
    requires Run(NewPool(size, disk), steps).Some?
  {
    if steps == [] then false
    else
      var before, step := steps[..|steps| - 1], steps[|steps| - 1];
      var m := Run(NewPool(size, disk), before).value;
      match step
      case Miss(_, _, _, g) => g != f && DirtyAfter(size, disk, before, f)
      case WriteMarked(id, _) => m.ops[id].frame == f || DirtyAfter(size, disk, before, f)
      case _ => DirtyAfter(size, disk, before, f)
  }

  lemma DirtyStep(s: Pool, step: Step, f: int)
    requires Enabled(s, step) && 0 <= f < |s.frames| == |Next(s, step).frames|
    ensures Next(s, step).frames[f].dirty ==
            match step
            case Miss(_, _, _, g) => g != f && s.frames[f].dirty
            case WriteMarked(id, _) => s.ops[id].frame == f || s.frames[f].dirty
            case _ => s.frames[f].dirty
  {
  }

  lemma {:induction false} DirtyExactly(size: nat, disk: map<PageId, Data>, steps: seq<Step>, s: Pool, f: int)
    requires Run(NewPool(size, disk), steps) == Some(s) && 0 <= f < size
    ensures |s.frames| == size && s.frames[f].dirty == DirtyAfter(size, disk, steps, f)
  {
    if steps != [] {
      var before, step := steps[..|steps| - 1], steps[|steps| - 1];
      var m := Run(NewPool(size, disk), before).value;
      DirtyExactly(size, disk, before, m, f);
      StepKeepsFrames(m, step);
      DirtyStep(m, step, f);
    }
  }

  /** The page put on a frame, and by whom, if the step puts one on. */
  function Taking(step: Step): Option<int> {
    match step
    case Miss(_, _, _, f) => Some(f)
    case CreatePage(_, _, f) => Some(f)
    case _ => None
  }

  /** Taking a frame flushes its page exactly when it has one and is dirty: the operation then has the
      page with the bytes it had, and otherwise nothing to flush. */
  lemma FlushedExactly(size: nat, disk: map<PageId, Data>, steps: seq<Step>, s: Pool, step: Step, f: int)
    requires Run(NewPool(size, disk), steps) == Some(s) && Enabled(s, step) && Taking(step) == Some(f)
    ensures 0 <= f < size == |s.frames| && step.id in Next(s, step).ops
    ensures Next(s, step).ops[step.id].victim ==
            if s.frames[f].page.Some? && DirtyAfter(size, disk, steps, f)
            then Some(Victim(s.frames[f].page.value, s.frames[f].data)) else None
  {
    FramesStay(size, disk, steps, s);
    DirtyExactly(size, disk, steps, s, f);
    RunIsSound(size, disk, steps, s);
    assert FrameOk(s, f);
    if s.free != [] { assert f in s.free; }
  }

  /** Only flushing a dirty page, and creating one, changes what is on disk. */
  lemma DiskChanges(s: Pool, step: Step, p: PageId)
    requires Invariant(s) && Enabled(s, step)
    ensures p in Next(s, step).disk <==> p in s.disk || (step.CreatePage? && step.page == p)
    ensures p in s.disk ==>
              Next(s, step).disk[p] ==
              if step.CreatePage? && step.page == p then ZeroPage()
              else if step.WriteFlush? && s.ops[step.id].victim.value.page == p
              then s.ops[step.id].victim.value.copy
              else s.disk[p]
  {
    if step.WriteFlush? {
      assert OpOk(s, step.id);
      assert PageOk(s, s.ops[step.id].victim.value.page);
    }
  }
}
