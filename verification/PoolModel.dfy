/** The buffer pool as a step system: every critical section and every stretch between two awaits is
    one step. */
module PoolModel {
  import opened Bytes
  import opened Outcomes
  import opened PageLayout

  datatype PageId = PageId(table: int, index: int)

  type OpId = int

  datatype Kind = Read | Write | Create

  /** How far an operation on a page has come. */
  datatype Phase =
    | HitCheck                  // found the page cached and pinned its frame
    | HitWaiting                // subscribed to the fetch of the page in flight
    | MissCheck                 // claimed a frame for the page
    | MissWaiting               // subscribed to the flush of the page in flight
    | MissReading               // about to read the page from disk
    | MissLoaded(buffer: Data)  // has read it and is about to fill the frame
    | Flushing                  // about to write the victim's bytes to disk
    | FlushWritten              // has written them and is about to close the flush
    | Pinned                    // about to lock the frame
    | Holding                   // the caller has the guard

  /** A dirty page that was evicted, and the copy of its bytes that is to be flushed. */
  datatype Victim = Victim(page: PageId, copy: Data)

  datatype Op = Op(kind: Kind, page: PageId, frame: int, victim: Option<Victim>, phase: Phase, ticket: int)

  datatype Frame = Frame(page: Option<PageId>, data: Data, dirty: bool, pin: int)

  /** A broadcast channel: who will send on it, and who is subscribed. */
  datatype Channel = Channel(owner: OpId, subscribers: set<OpId>)

  datatype Pool = Pool(
    frames: seq<Frame>,
    free: seq<int>,
    table: map<PageId, int>,
    evictable: set<int>,
    fetches: map<PageId, Channel>,
    flushes: map<PageId, Channel>,
    delivered: set<OpId>,             // operations whose subscription has received its message
    disk: map<PageId, Data>,
    ops: map<OpId, Op>,
    unwritten: map<PageId, OpId>,     // created pages not yet written, with their creators
    clock: int)                       // tickets handed out so far

  // ---------------------------------------------------------------- frames

  /** Bytes a fresh frame or a freshly allocated page holds. */
  function ZeroPage(): Data { Zeros(PAGE_SIZE) }

  function NewFrame(): Frame { Frame(None, ZeroPage(), false, 0) }

  function NewPool(size: nat, disk: map<PageId, Data>): Pool {
    Pool(seq(size, _ => NewFrame()), seq(size, i => i), map[], {}, map[], map[], {}, disk, map[], map[], 0)
  }

  /** Frame a new entry of the page table may take: the last free one, or any evictable one when
      none is free. */
  predicate CanTake(s: Pool, f: int) {
    && 0 <= f < |s.frames|
    && if s.free != [] then f == s.free[|s.free| - 1] else f in s.evictable && s.frames[f].page.Some?
  }

  /** The dirty page that goes when frame `f` is taken. */
  function VictimOf(s: Pool, f: int): Option<Victim>
    requires CanTake(s, f)
  {
    if s.free == [] && s.frames[f].dirty then Some(Victim(s.frames[f].page.value, s.frames[f].data)) else None
  }

  /** The frame taken and pinned, its old page out of the table and the new one in it, and the flush
      of a dirty victim announced. */
  function Take(s: Pool, id: OpId, page: PageId, f: int, dirty: bool): Pool
    requires CanTake(s, f)
  {
    var frame := s.frames[f];
    var victim := VictimOf(s, f);
    s.(frames := s.frames[f := Frame(Some(page), frame.data, dirty, frame.pin + 1)],
       free := if s.free != [] then s.free[..|s.free| - 1] else [],
       table := (if s.free != [] then s.table else s.table - {frame.page.value})[page := f],
       evictable := s.evictable - {f},
       flushes := match victim case None => s.flushes case Some(v) => s.flushes[v.page := Channel(id, {})],
       clock := s.clock + 1)
  }

  /** How a created page's operation goes on: with the flush of the victim, if there is one. */
  function CreatedPhase(victim: Option<Victim>): Phase { if victim.Some? then Flushing else Pinned }

  function Pin(frame: Frame): Frame { frame.(pin := frame.pin + 1) }

  // ---------------------------------------------------------------- locks

  /** The operation holds the frame's lock for writing: a write guard, or a fetch that has filled the
      frame and goes on to flush its victim. */
  predicate LocksToWrite(o: Op) {
    if o.phase.Holding? then o.kind != Read
    else o.kind != Create && (o.phase.Flushing? || o.phase.FlushWritten?)
  }

  predicate Locks(o: Op) { o.phase.Holding? || LocksToWrite(o) }

  predicate CanLock(s: Pool, id: OpId, toWrite: bool)
    requires id in s.ops
  {
    forall j :: j in s.ops && j != id && s.ops[j].frame == s.ops[id].frame ==>
      if toWrite then !Locks(s.ops[j]) else !LocksToWrite(s.ops[j])
  }

  // ---------------------------------------------------------------- steps

  datatype Step =
    | Hit(id: OpId, kind: Kind, page: PageId)
    | Miss(id: OpId, kind: Kind, page: PageId, frame: int)
    | CreatePage(id: OpId, page: PageId, frame: int)
    | FindFetch(id: OpId)
    | WakeFetched(id: OpId)
    | FindFlush(id: OpId)
    | WakeFlushed(id: OpId)
    | ReadDisk(id: OpId)
    | Publish(id: OpId)
    | WriteFlush(id: OpId)
    | EndFlush(id: OpId)
    | Acquire(id: OpId)
    | WriteMarked(id: OpId, bytes: Data)
    | Drop(id: OpId)

  predicate At(s: Pool, id: OpId, phase: Phase) { id in s.ops && s.ops[id].phase == phase }

  /** The page may be fetched: it is allocated, and its creator has its guard. */
  predicate Fetchable(s: Pool, page: PageId) {
    && page in s.disk
    && (page in s.unwritten ==> At(s, s.unwritten[page], Holding))
  }

  predicate Enabled(s: Pool, step: Step) {
    match step
    case Hit(id, kind, page) =>
      id !in s.ops && kind != Create && Fetchable(s, page) && page in s.table && 0 <= s.table[page] < |s.frames|
    case Miss(id, kind, page, f) =>
      id !in s.ops && kind != Create && Fetchable(s, page) && page !in s.table && CanTake(s, f)
    case CreatePage(id, page, f) => id !in s.ops && page !in s.disk && CanTake(s, f)
    case FindFetch(id) => At(s, id, HitCheck)
    case WakeFetched(id) => At(s, id, HitWaiting) && id in s.delivered
    case FindFlush(id) => At(s, id, MissCheck)
    case WakeFlushed(id) => At(s, id, MissWaiting) && id in s.delivered
    case ReadDisk(id) => At(s, id, MissReading) && s.ops[id].page in s.disk
    case Publish(id) =>
      id in s.ops && s.ops[id].phase.MissLoaded? && 0 <= s.ops[id].frame < |s.frames|
          && s.ops[id].page in s.fetches && CanLock(s, id, true)
    case WriteFlush(id) => At(s, id, Flushing) && s.ops[id].victim.Some?
    case EndFlush(id) => At(s, id, FlushWritten) && s.ops[id].victim.Some? && s.ops[id].victim.value.page in s.flushes
    case Acquire(id) => At(s, id, Pinned) && CanLock(s, id, s.ops[id].kind != Read)
    case WriteMarked(id, _) => At(s, id, Holding) && s.ops[id].kind != Read && 0 <= s.ops[id].frame < |s.frames|
    case Drop(id) =>
      && At(s, id, Holding) && 0 <= s.ops[id].frame < |s.frames| && s.frames[s.ops[id].frame].pin > 0
      && (s.ops[id].page in s.unwritten ==> s.unwritten[s.ops[id].page] != id)
  }

  /** The state with one operation moved to another phase. */
  function MoveTo(s: Pool, id: OpId, phase: Phase): Pool
    requires id in s.ops
  {
    s.(ops := s.ops[id := s.ops[id].(phase := phase)])
  }

  function Subscribe(c: Channel, id: OpId): Channel { c.(subscribers := c.subscribers + {id}) }

  function Next(s: Pool, step: Step): Pool
    requires Enabled(s, step)
  {
    match step
    case Hit(id, kind, page) =>
      var f := s.table[page];
      s.(frames := s.frames[f := Pin(s.frames[f])], evictable := s.evictable - {f},
         ops := s.ops[id := Op(kind, page, f, None, HitCheck, s.clock)], clock := s.clock + 1)
    case Miss(id, kind, page, f) =>
      Take(s, id, page, f, false)
        .(fetches := s.fetches[page := Channel(id, {})],
          ops := s.ops[id := Op(kind, page, f, VictimOf(s, f), MissCheck, s.clock)])
    case CreatePage(id, page, f) =>
      Take(s, id, page, f, s.frames[f].dirty)
        .(disk := s.disk[page := ZeroPage()], unwritten := s.unwritten[page := id],
          ops := s.ops[id := Op(Create, page, f, VictimOf(s, f), CreatedPhase(VictimOf(s, f)), s.clock)])
    case FindFetch(id) =>
      var page := s.ops[id].page;
      if page in s.fetches then
        MoveTo(s, id, HitWaiting).(fetches := s.fetches[page := Subscribe(s.fetches[page], id)])
      else MoveTo(s, id, Pinned)
    case WakeFetched(id) => MoveTo(s, id, Pinned).(delivered := s.delivered - {id})
    case FindFlush(id) =>
      var page := s.ops[id].page;
      if page in s.flushes then
        MoveTo(s, id, MissWaiting).(flushes := s.flushes[page := Subscribe(s.flushes[page], id)])
      else MoveTo(s, id, MissReading)
    case WakeFlushed(id) => MoveTo(s, id, MissReading).(delivered := s.delivered - {id})
    case ReadDisk(id) => MoveTo(s, id, MissLoaded(s.disk[s.ops[id].page]))
    case Publish(id) =>
      var o := s.ops[id];
      MoveTo(s, id, if o.victim.Some? then Flushing else Pinned)
        .(frames := s.frames[o.frame := s.frames[o.frame].(data := o.phase.buffer)],
          fetches := s.fetches - {o.page}, delivered := s.delivered + s.fetches[o.page].subscribers)
    case WriteFlush(id) =>
      var v := s.ops[id].victim.value;
      MoveTo(s, id, FlushWritten).(disk := s.disk[v.page := v.copy])
    case EndFlush(id) =>
      var v := s.ops[id].victim.value;
      s.(ops := s.ops[id := s.ops[id].(phase := Pinned, victim := None)],
         flushes := s.flushes - {v.page}, delivered := s.delivered + s.flushes[v.page].subscribers)
    case Acquire(id) => MoveTo(s, id, Holding)
    case WriteMarked(id, bytes) =>
      var o := s.ops[id];
      s.(frames := s.frames[o.frame := s.frames[o.frame].(data := bytes, dirty := true)],
          unwritten := s.unwritten - {o.page})
    case Drop(id) =>
      var f := s.ops[id].frame;
      var frame := s.frames[f].(pin := s.frames[f].pin - 1);
      s.(frames := s.frames[f := frame], ops := s.ops - {id},
         evictable := if frame.pin == 0 then s.evictable + {f} else s.evictable)
  }

  // ---------------------------------------------------------------- the invariant

  function OpsOn(ops: map<OpId, Op>, f: int): set<OpId> { set id | id in ops && ops[id].frame == f }

  /** The operation claimed its frame and has not finished bringing the page in and the victim out. */
  predicate Claiming(o: Op) {
    !(o.phase.HitCheck? || o.phase.HitWaiting? || o.phase.Pinned? || o.phase.Holding?)
  }

  predicate Missing(o: Op) {
    o.phase.MissCheck? || o.phase.MissWaiting? || o.phase.MissReading? || o.phase.MissLoaded?
  }

  /** What each phase promises. A waiting operation is subscribed to a channel that still will send,
      or has its message: no wake-up is lost. */
  predicate PhaseOk(s: Pool, id: OpId)
    requires id in s.ops && s.ops[id].page in s.disk
  {
    var o := s.ops[id];
    match o.phase
    case HitCheck => o.kind != Create && o.victim == None
    case HitWaiting =>
      && o.kind != Create && o.victim == None
      && if id in s.delivered then o.page !in s.fetches else o.page in s.fetches && id in s.fetches[o.page].subscribers
    case MissCheck => true
    case MissWaiting =>
      if id in s.delivered then o.page !in s.flushes
      else o.page in s.flushes && id in s.flushes[o.page].subscribers
    case MissReading => o.page !in s.flushes
    case MissLoaded(buffer) => o.page !in s.flushes && buffer == s.disk[o.page]
    case Flushing => o.victim.Some?
    case FlushWritten => o.victim.Some? && o.victim.value.page in s.disk
        && s.disk[o.victim.value.page] == o.victim.value.copy
    case Pinned => o.victim == None
    case Holding => o.victim == None
  }

  predicate OpOk(s: Pool, id: OpId)
    requires id in s.ops
  {
    var o := s.ops[id];
    && o.page in s.table && s.table[o.page] == o.frame
    && o.page in s.disk && 0 <= o.ticket < s.clock
    && (id in s.delivered ==> o.phase.HitWaiting? || o.phase.MissWaiting?)
    && (Missing(o) ==> o.kind != Create && o.page in s.fetches && s.fetches[o.page].owner == id)
    && (!Missing(o) && !o.phase.HitCheck? && !o.phase.HitWaiting? ==> o.page !in s.fetches)
    && (o.victim.Some? ==>
       o.victim.value.page != o.page && o.victim.value.page in s.flushes && s.flushes[o.victim.value.page].owner == id)
    && PhaseOk(s, id)
  }

  predicate TableOk(s: Pool, page: PageId)
    requires page in s.table
  {
    0 <= s.table[page] < |s.frames| && s.frames[s.table[page]].page == Some(page) && page in s.disk
  }

  /** Free frames and mapped frames partition all frames; the pin count is the number of operations
      on the frame; the evictor has the mapped frames with pin count zero; and a clean frame whose
      fetch is complete has the bytes on disk. */
  predicate FrameOk(s: Pool, f: int)
    requires 0 <= f < |s.frames|
  {
    var frame := s.frames[f];
    && frame.pin == |OpsOn(s.ops, f)|
    && (f in s.free <==> frame.page.None?)
    && (f in s.evictable <==> frame.page.Some? && frame.pin == 0)
    && match frame.page
       case None => frame == NewFrame()
       case Some(page) =>
         && page in s.table && s.table[page] == f && page in s.disk
         && (!frame.dirty && page !in s.fetches && page !in s.unwritten ==> frame.data == s.disk[page])
  }

  predicate FetchOk(s: Pool, page: PageId)
    requires page in s.fetches
  {
    var c := s.fetches[page];
    && c.owner in s.ops && s.ops[c.owner].page == page && Missing(s.ops[c.owner])
    && forall w :: w in c.subscribers ==>
       w in s.ops && s.ops[w].page == page && s.ops[w].phase == HitWaiting && w !in s.delivered
  }

  /** At most one flush of a page is in flight: its owner has the page as victim. A page being flushed
      is not cached, or its new fetch has not gone past the wait for the flush. */
  predicate FlushOk(s: Pool, page: PageId)
    requires page in s.flushes
  {
    var c := s.flushes[page];
    && c.owner in s.ops && s.ops[c.owner].victim.Some? && s.ops[c.owner].victim.value.page == page
    && page in s.disk && page !in s.unwritten
    && (page in s.table ==>
          && page in s.fetches && s.fetches[page].owner in s.ops
          && var o := s.ops[s.fetches[page].owner]; o.phase.MissCheck? || o.phase.MissWaiting?)
    && (forall w :: w in c.subscribers ==>
       w in s.ops && s.ops[w].page == page && s.ops[w].phase == MissWaiting && w !in s.delivered)
  }

  /** A created page that was not written yet is pinned by its creator, and until that has its guard
      by nobody else. */
  predicate UnwrittenOk(s: Pool, page: PageId)
    requires page in s.unwritten
  {
    var id := s.unwritten[page];
    && id in s.ops && s.ops[id].kind == Create && s.ops[id].page == page
    && page in s.table && page !in s.fetches
    && (!s.ops[id].phase.Holding? ==> forall j :: j in s.ops && s.ops[j].page == page ==> j == id)
  }

  predicate FreeOk(s: Pool) {
    && (forall i :: 0 <= i < |s.free| ==> 0 <= s.free[i] < |s.frames|)
    && (forall i, j :: 0 <= i < j < |s.free| ==> s.free[i] != s.free[j])
    && (forall f :: f in s.evictable ==> 0 <= f < |s.frames|)
    && (forall id :: id in s.delivered ==> id in s.ops)
    && 0 <= s.clock
  }

  /** A write lock excludes every other lock; an operation that is still claiming its frame came
      before all others on the frame, and the flush of a page before every operation on the page. */
  predicate PairOk(s: Pool, i: OpId, j: OpId)
    requires i in s.ops && j in s.ops
  {
    var a, b := s.ops[i], s.ops[j];
    && (a.frame == b.frame && LocksToWrite(a) ==> !Locks(b))
    && (a.frame == b.frame && Claiming(a) ==> a.ticket < b.ticket)
    && (a.victim.Some? && a.victim.value.page == b.page ==> a.ticket < b.ticket)
  }

  predicate PageOk(s: Pool, page: PageId) {
    && (page in s.table ==> TableOk(s, page))
    && (page in s.fetches ==> FetchOk(s, page))
    && (page in s.flushes ==> FlushOk(s, page))
    && (page in s.unwritten ==> UnwrittenOk(s, page))
  }

  ghost predicate Invariant(s: Pool) {
    && FreeOk(s)
    && (forall id :: id in s.ops ==> OpOk(s, id))
    && (forall i, j :: i in s.ops && j in s.ops && i != j ==> PairOk(s, i, j))
    && (forall f :: 0 <= f < |s.frames| ==> FrameOk(s, f))
    && (forall page :: PageOk(s, page))
  }
}
