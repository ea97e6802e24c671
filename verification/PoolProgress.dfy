/** Nothing in the pool waits in a circle, and every operation can be brought to its end. */
module PoolProgress {
  import opened Bytes
  import opened PoolModel
  import opened PoolInvariant

  /** Operation `i` cannot go on before `j` does: it is subscribed to a channel `j` will send on, or
      wants the lock `j` keeps while it flushes its victim. */
  predicate WaitsFor(s: Pool, i: OpId, j: OpId) {
    && i in s.ops && j in s.ops && i != j
    && var a, b := s.ops[i], s.ops[j];
       || (a.phase.HitWaiting? && i !in s.delivered && a.page in s.fetches && s.fetches[a.page].owner == j)
       || (a.phase.MissWaiting? && i !in s.delivered && a.page in s.flushes && s.flushes[a.page].owner == j)
       || (a.phase.Pinned? && a.frame == b.frame && LocksToWrite(b) && !b.phase.Holding?)
  }

  /** An operation only waits for one whose page-table section ran earlier. */
  lemma WaitsForEarlier(s: Pool, i: OpId, j: OpId)
    requires Invariant(s) && WaitsFor(s, i, j)
    ensures s.ops[j].ticket < s.ops[i].ticket
  {
    assert OpOk(s, i) && OpOk(s, j) && PageOk(s, s.ops[i].page) && PairOk(s, j, i);
  }

  ghost predicate WaitingChain(s: Pool, chain: seq<OpId>) {
    |chain| >= 2 ==> WaitsFor(s, chain[0], chain[1]) && WaitingChain(s, chain[1..])
  }

  lemma {:induction false} ChainDescends(s: Pool, chain: seq<OpId>)
    requires Invariant(s) && |chain| >= 2 && WaitingChain(s, chain)
    ensures chain[0] in s.ops && chain[|chain| - 1] in s.ops
    ensures s.ops[chain[|chain| - 1]].ticket < s.ops[chain[0]].ticket
  {
    WaitsForEarlier(s, chain[0], chain[1]);
    if |chain| > 2 { ChainDescends(s, chain[1..]); }
  }

  /** No operations wait for each other in a circle. */
  lemma NoCyclicWaiting(s: Pool, chain: seq<OpId>)
    requires Invariant(s) && |chain| >= 2 && WaitingChain(s, chain)
    ensures chain[0] != chain[|chain| - 1]
  {
    ChainDescends(s, chain);
  }

  // ---------------------------------------------------------------- who can go on

  /** The next step of an operation that does not have its guard yet. */
  function NextStep(s: Pool, id: OpId): Step
    requires id in s.ops && !s.ops[id].phase.Holding?
  {
    match s.ops[id].phase
    case HitCheck => FindFetch(id)
    case HitWaiting => WakeFetched(id)
    case MissCheck => FindFlush(id)
    case MissWaiting => WakeFlushed(id)
    case MissReading => ReadDisk(id)
    case MissLoaded(_) => Publish(id)
    case Flushing => WriteFlush(id)
    case FlushWritten => EndFlush(id)
    case _ => Acquire(id)
  }

  /** The frame is locked by a guard some caller has. */
  ghost predicate BehindGuard(s: Pool, id: OpId) {
    && At(s, id, Pinned)
    && exists j :: At(s, j, Holding) && j != id && s.ops[j].frame == s.ops[id].frame
  }

  /** An operation without its guard can go on, or its frame is locked by a caller's guard, or it
      waits for an earlier operation; a fetch that has read its page never waits for the lock. */
  lemma GoesOnOrWaits(s: Pool, id: OpId)
    requires Invariant(s) && id in s.ops && !s.ops[id].phase.Holding?
    ensures Enabled(s, NextStep(s, id)) || BehindGuard(s, id) || exists j :: WaitsFor(s, id, j)
  {
    var o := s.ops[id];
    assert OpOk(s, id) && PageOk(s, o.page);
    match o.phase
    case HitWaiting => if id !in s.delivered { assert WaitsFor(s, id, s.fetches[o.page].owner); }
    case MissWaiting => if id !in s.delivered { FlusherIsOther(s, id); }
    case MissLoaded(_) => FrameUnlocked(s, id);
    case Pinned =>
      if !CanLock(s, id, o.kind != Read) {
        var j :| j in s.ops && j != id && s.ops[j].frame == o.frame && Locks(s.ops[j]);
        if !s.ops[j].phase.Holding? { assert WaitsFor(s, id, j); }
      }
    case _ =>
  }

  lemma FlusherIsOther(s: Pool, id: OpId)
    requires Invariant(s) && At(s, id, MissWaiting) && id !in s.delivered
    ensures exists j :: WaitsFor(s, id, j)
  {
    var o := s.ops[id];
    assert OpOk(s, id) && PageOk(s, o.page);
    var j := s.flushes[o.page].owner;
    assert OpOk(s, j);
    assert WaitsFor(s, id, j);
  }

  lemma FrameUnlocked(s: Pool, id: OpId)
    requires Invariant(s) && id in s.ops && s.ops[id].phase.MissLoaded?
    ensures CanLock(s, id, true)
  {
    assert OpOk(s, id) && PageOk(s, s.ops[id].page);
    forall j | j in s.ops && j != id && s.ops[j].frame == s.ops[id].frame ensures !Locks(s.ops[j]) {
      assert OpOk(s, j) && PageOk(s, s.ops[j].page);
    }
  }

  /** Some operation without its guard can go on, or is behind a guard a caller has. */
  lemma SomeoneGoesOn(s: Pool, id: OpId) returns (next: OpId)
    requires Invariant(s) && id in s.ops && !s.ops[id].phase.Holding?
    ensures next in s.ops && !s.ops[next].phase.Holding?
    ensures Enabled(s, NextStep(s, next)) || BehindGuard(s, next)
    decreases if id in s.ops then s.ops[id].ticket else 0
  {
    GoesOnOrWaits(s, id);
    if Enabled(s, NextStep(s, id)) || BehindGuard(s, id) {
      next := id;
    } else {
      var j :| WaitsFor(s, id, j);
      WaitsForEarlier(s, id, j);
      assert OpOk(s, j) && PageOk(s, s.ops[id].page);
      next := SomeoneGoesOn(s, j);
    }
  }

  /** The caller of a guard can always drop it, after the first write if the page was created. */
  lemma GuardCanEnd(s: Pool, id: OpId, bytes: Data)
    requires Invariant(s) && At(s, id, Holding)
    ensures Enabled(s, Drop(id)) <==> !(s.ops[id].page in s.unwritten && s.unwritten[s.ops[id].page] == id)
    ensures !Enabled(s, Drop(id)) ==> Enabled(s, WriteMarked(id, bytes)) && s.ops[id].page in s.unwritten
  {
    var o := s.ops[id];
    assert OpOk(s, id) && PageOk(s, o.page);
    assert FrameOk(s, o.frame);
    assert id in OpsOn(s.ops, o.frame);
  }

  // ---------------------------------------------------------------- finishing all operations

  /** Steps an operation still has before it, at most. */
  function Remaining(o: Op): nat {
    match o.phase
    case MissCheck => 8
    case MissWaiting => 7
    case MissReading => 6
    case MissLoaded(_) => 5
    case Flushing => 4
    case HitCheck => 4
    case FlushWritten => 3
    case HitWaiting => 3
    case Pinned => 2
    case Holding => 1
  }

  lemma SomeOp(ops: map<OpId, Op>)
    ensures ops == map[] || exists id :: id in ops
  {
    if forall id :: id !in ops { assert ops == map[]; }
  }

  ghost function AnyOp(ops: map<OpId, Op>): (id: OpId)
    requires ops != map[]
    ensures id in ops
  {
    SomeOp(ops);
    var id :| id in ops;
    id
  }

  ghost function Work(ops: map<OpId, Op>): nat
    decreases |ops|
  {
    if ops == map[] then 0
    else
      var id := AnyOp(ops);
      SmallerWithout(ops, id);
      Remaining(ops[id]) + Work(ops - {id})
  }

  lemma SmallerWithout(ops: map<OpId, Op>, id: OpId)
    requires id in ops
    ensures |ops - {id}| == |ops| - 1
  {
    assert (ops - {id}).Keys == ops.Keys - {id};
    assert |ops.Keys| == |ops| && |(ops - {id}).Keys| == |ops - {id}|;
  }

  lemma {:induction false} WorkWithout(ops: map<OpId, Op>, id: OpId)
    requires id in ops
    ensures Work(ops) == Remaining(ops[id]) + Work(ops - {id})
    decreases |ops|
  {
    var k := AnyOp(ops);
    if k != id {
      SmallerWithout(ops, k);
      SmallerWithout(ops, id);
      WorkWithout(ops - {k}, id);
      WorkWithout(ops - {id}, k);
      assert ops - {k} - {id} == ops - {id} - {k};
    }
  }

  lemma WorkChanged(ops: map<OpId, Op>, id: OpId, o: Op)
    requires id in ops
    ensures Work(ops[id := o]) == Work(ops) - Remaining(ops[id]) + Remaining(o)
  {
    WorkWithout(ops, id);
    WorkWithout(ops[id := o], id);
    assert ops[id := o] - {id} == ops - {id};
  }

  /** Work left in a state: the steps of its operations, and one write for each page that was created
      and not yet written. */
  ghost function Left(s: Pool): nat { Work(s.ops) + |s.unwritten| }

  /** One step of an operation already begun. */
  predicate Continues(step: Step) { !step.Hit? && !step.Miss? && !step.CreatePage? }

  lemma NextStepWorks(s: Pool, id: OpId)
    requires id in s.ops && !s.ops[id].phase.Holding? && Enabled(s, NextStep(s, id))
    ensures Continues(NextStep(s, id)) && Left(Next(s, NextStep(s, id))) < Left(s)
  {
    var s' := Next(s, NextStep(s, id));
    match s.ops[id].phase {
      case HitCheck | HitWaiting | Pinned => HitMoves(s, id, s');
      case MissCheck | MissWaiting | MissReading => MissMoves(s, id, s');
      case _ => FlushMoves(s, id, s');
    }
    WorkChanged(s.ops, id, s'.ops[id]);
  }

  /** Only this operation moved, and it has less before it. */
  ghost predicate Onward(s: Pool, id: OpId, s': Pool)
    requires id in s.ops
  {
    && id in s'.ops && s'.ops == s.ops[id := s'.ops[id]] && s'.unwritten == s.unwritten
    && Remaining(s'.ops[id]) < Remaining(s.ops[id])
  }

  lemma HitMoves(s: Pool, id: OpId, s': Pool)
    requires id in s.ops && (s.ops[id].phase.HitCheck? || s.ops[id].phase.HitWaiting? || s.ops[id].phase.Pinned?)
    requires Enabled(s, NextStep(s, id)) && s' == Next(s, NextStep(s, id))
    ensures Onward(s, id, s')
  {
    match s.ops[id].phase
    case HitCheck => assert NextStep(s, id) == FindFetch(id);
    case HitWaiting => assert NextStep(s, id) == WakeFetched(id);
    case Pinned => assert NextStep(s, id) == Acquire(id);
  }

  lemma MissMoves(s: Pool, id: OpId, s': Pool)
    requires id in s.ops && (s.ops[id].phase.MissCheck? || s.ops[id].phase.MissWaiting? || s.ops[id].phase.MissReading?)
    requires Enabled(s, NextStep(s, id)) && s' == Next(s, NextStep(s, id))
    ensures Onward(s, id, s')
  {
    match s.ops[id].phase
    case MissCheck => assert NextStep(s, id) == FindFlush(id);
    case MissWaiting => assert NextStep(s, id) == WakeFlushed(id);
    case MissReading => assert NextStep(s, id) == ReadDisk(id);
  }

  lemma FlushMoves(s: Pool, id: OpId, s': Pool)
    requires id in s.ops && (s.ops[id].phase.MissLoaded? || s.ops[id].phase.Flushing? || s.ops[id].phase.FlushWritten?)
    requires Enabled(s, NextStep(s, id)) && s' == Next(s, NextStep(s, id))
    ensures Onward(s, id, s')
  {
    match s.ops[id].phase
    case MissLoaded(_) => assert NextStep(s, id) == Publish(id);
    case Flushing => assert NextStep(s, id) == WriteFlush(id);
    case FlushWritten => assert NextStep(s, id) == EndFlush(id);
  }

  lemma DropWorks(s: Pool, id: OpId)
    requires Enabled(s, Drop(id))
    ensures Left(Next(s, Drop(id))) < Left(s)
  {
    WorkWithout(s.ops, id);
  }

  lemma WriteWorks(s: Pool, id: OpId, bytes: Data)
    requires Enabled(s, WriteMarked(id, bytes)) && s.ops[id].page in s.unwritten
    ensures Left(Next(s, WriteMarked(id, bytes))) < Left(s)
  {
    var page, s' := s.ops[id].page, Next(s, WriteMarked(id, bytes));
    assert s'.unwritten.Keys == s.unwritten.Keys - {page};
    assert |s.unwritten.Keys| == |s.unwritten| && |s'.unwritten.Keys| == |s'.unwritten|;
  }

  /** A step that brings an operation already begun nearer to its end: any of them but writing a page
      again that has been written. */
  predicate Progresses(s: Pool, step: Step) {
    && Enabled(s, step) && Continues(step)
    && (step.WriteMarked? ==> s.ops[step.id].page in s.unwritten)
  }

  lemma ProgressWorks(s: Pool, step: Step)
    requires Progresses(s, step)
    ensures Left(Next(s, step)) < Left(s)
  {
    match step
    case WriteMarked(id, bytes) => WriteWorks(s, id, bytes);
    case Drop(id) => DropWorks(s, id);
    case _ => NextStepWorks(s, step.id);
  }

  /** While operations are under way some step brings one of them nearer to its end. */
  lemma SomeStepProgresses(s: Pool) returns (step: Step)
    requires Invariant(s) && s.ops != map[]
    ensures Progresses(s, step)
  {
    if exists i :: i in s.ops && !s.ops[i].phase.Holding? {
      var i :| i in s.ops && !s.ops[i].phase.Holding?;
      var next := SomeoneGoesOn(s, i);
      if Enabled(s, NextStep(s, next)) {
        NextStepWorks(s, next);
        return NextStep(s, next);
      }
      var j :| At(s, j, Holding) && j != next && s.ops[j].frame == s.ops[next].frame;
      step := EndGuard(s, j);
    } else {
      var g := AnyOp(s.ops);
      step := EndGuard(s, g);
    }
  }

  lemma EndGuard(s: Pool, id: OpId) returns (step: Step)
    requires Invariant(s) && At(s, id, Holding)
    ensures Progresses(s, step)
  {
    GuardCanEnd(s, id, ZeroPage());
    step := if Enabled(s, Drop(id)) then Drop(id) else WriteMarked(id, ZeroPage());
  }

  /** Steps that bring operations nearer to their end, each possible when its turn comes, and the state
      they lead to. */
  ghost predicate Leads(s: Pool, steps: seq<Step>, t: Pool)
    decreases |steps|
  {
    if steps == [] then t == s
    else Progresses(s, steps[0]) && Leads(Next(s, steps[0]), steps[1..], t)
  }

  /** Every schedule of such steps has an end, bounded by the work left when it begins; and one that
      cannot be continued has brought every operation to its end. No wake-up is lost, nothing is
      stuck, and the order in which the operations are taken does not matter. */
  lemma {:induction false} EveryScheduleFinishes(s: Pool, steps: seq<Step>, t: Pool)
    requires Invariant(s) && Leads(s, steps, t)
    ensures Invariant(t) && |steps| + Left(t) <= Left(s)
    ensures t.ops == map[] || exists step :: Progresses(t, step)
    decreases |steps|
  {
    if steps == [] {
      if t.ops != map[] { var step := SomeStepProgresses(t); }
    } else {
      StepKeeps(s, steps[0]);
      ProgressWorks(s, steps[0]);
      EveryScheduleFinishes(Next(s, steps[0]), steps[1..], t);
    }
  }

  /** From every sound state, with no new requests, all operations under way can be brought to their
      end. */
  lemma {:induction false} AllFinish(s: Pool) returns (steps: seq<Step>, t: Pool)
    requires Invariant(s)
    ensures Leads(s, steps, t) && t.ops == map[] && |steps| <= Left(s)
    decreases Left(s)
  {
    if s.ops == map[] {
      steps, t := [], s;
    } else {
      var step := SomeStepProgresses(s);
      StepKeeps(s, step);
      ProgressWorks(s, step);
      var rest;
      rest, t := AllFinish(Next(s, step));
      steps := [step] + rest;
      assert steps[1..] == rest;
    }
  }
}
