/** The buffer pool manager. Each method is one critical section, or one stretch between two awaits,
    and is proved to take one step of PoolModel.dfy. What an operation keeps in its local variables
    is passed as arguments. */
module BufferPool {
  import opened Bytes
  import opened Outcomes
  import opened PageLayout
  import opened PoolModel
  import opened PoolInvariant
  import opened PoolCoherence
  import opened PoolProgress
  import Evictor

  class PoolFrame {
    const id: int
    var page: Option<PageId>
    var data: Data
    var dirty: bool
    var pin: int

    constructor (id: int)
      ensures this.id == id && Value() == NewFrame()
    {
      this.id := id;
      page, data, dirty, pin := None, Zeros(PAGE_SIZE), false, 0;
    }

    function Value(): Frame
      reads this
    {
      Frame(page, data, dirty, pin)
    }

    /** Both counts return the value before the change. */
    method IncrementPinCount() returns (previous: int)
      modifies this
      ensures previous == old(pin) && Value() == old(Value()).(pin := old(pin) + 1)
    {
      previous := pin;
      pin := pin + 1;
    }

    method DecrementPinCount() returns (previous: int)
      requires pin > 0
      modifies this
      ensures previous == old(pin) && Value() == old(Value()).(pin := old(pin) - 1)
    {
      previous := pin;
      pin := pin - 1;
    }
  }

  ghost function Values(frames: seq<PoolFrame>): (v: seq<Frame>)
    reads frames
    ensures |v| == |frames| && forall i :: 0 <= i < |v| ==> v[i] == frames[i].Value()
  {
    seq(|frames|, i requires 0 <= i < |frames| reads frames => frames[i].Value())
  }

  ghost function Members(flags: seq<bool>): (s: set<int>)
    ensures forall f :: f in s <==> 0 <= f < |flags| && flags[f]
  {
    set f | 0 <= f < |flags| && flags[f]
  }

  method NewFrames(size: nat) returns (frames: seq<PoolFrame>)
    ensures |frames| == size
    ensures forall i :: 0 <= i < size ==> fresh(frames[i]) && frames[i].id == i && frames[i].Value() == NewFrame()
    ensures forall i, j :: 0 <= i < j < size ==> frames[i] != frames[j]
  {
    frames := [];
    for n := 0 to size
      invariant |frames| == n
      invariant forall i :: 0 <= i < n ==> fresh(frames[i]) && frames[i].id == i && frames[i].Value() == NewFrame()
      invariant forall i, j :: 0 <= i < j < n ==> frames[i] != frames[j]
    {
      var frame := new PoolFrame(n);
      frames := frames + [frame];
    }
  }

  /** What the page-table section of a fetch ends in. */
  datatype Start = Cached(frame: int) | Claimed(frame: int, victim: Option<Victim>) | BufferFull

  lemma Stepped(s: Pool, step: Step, t: Pool)
    requires Invariant(s) && Enabled(s, step) && t == Next(s, step)
    ensures Invariant(t)
  {
    StepKeeps(s, step);
  }

  lemma DropInTwo(s: Pool, id: OpId, f: int, t: Pool)
    requires Enabled(s, Drop(id)) && s.ops[id].frame == f
    requires t == s.(frames := s.frames[f := s.frames[f].(pin := s.frames[f].pin - 1)], ops := s.ops - {id},
                     evictable := s.evictable + if s.frames[f].pin == 1 then {f} else {})
    ensures t == Next(s, Drop(id))
  {
  }

  lemma TakenIsUnpinned(s: Pool, f: int)
    requires Invariant(s) && CanTake(s, f)
    ensures s.frames[f].pin == 0
  {
    assert FrameOk(s, f);
    if s.free != [] { assert f in s.free; }
  }

  /** The state between taking a frame and putting the new page on it. */
  ghost function Vacated(s: Pool, id: OpId, f: int): Pool
    requires CanTake(s, f)
  {
    s.(free := if s.free != [] then s.free[..|s.free| - 1] else [],
       table := if s.free != [] then s.table else s.table - {s.frames[f].page.value},
       evictable := s.evictable - {f},
       flushes := match VictimOf(s, f) case None => s.flushes case Some(v) => s.flushes[v.page := Channel(id, {})])
  }

  /** The frame with the page put on it, after it was vacated. */
  ghost function Occupied(v: Pool, page: PageId, f: int, dirty: bool): Pool
    requires 0 <= f < |v.frames|
  {
    v.(frames := v.frames[f := Frame(Some(page), v.frames[f].data, dirty, 1)],
       table := v.table[page := f], evictable := v.evictable - {f})
  }

  lemma TakeInTwo(s: Pool, id: OpId, page: PageId, f: int, dirty: bool)
    requires CanTake(s, f) && s.frames[f].pin == 0
    ensures Occupied(Vacated(s, id, f), page, f, dirty).(clock := s.clock + 1) == Take(s, id, page, f, dirty)
  {
    assert s.evictable - {f} - {f} == s.evictable - {f};
  }

  lemma MissInTwo(s: Pool, id: OpId, kind: Kind, page: PageId, f: int, t: Pool)
    requires Enabled(s, Miss(id, kind, page, f)) && s.frames[f].pin == 0
    requires t == Occupied(Vacated(s, id, f), page, f, false)
                    .(fetches := s.fetches[page := Channel(id, {})], clock := s.clock + 1,
                      ops := s.ops[id := Op(kind, page, f, VictimOf(s, f), MissCheck, s.clock)])
    ensures t == Next(s, Miss(id, kind, page, f))
  {
    TakeInTwo(s, id, page, f, false);
  }

  lemma CreateInTwo(s: Pool, id: OpId, page: PageId, f: int, victim: Option<Victim>, v: Pool, t: Pool)
    requires Enabled(s, CreatePage(id, page, f)) && s.frames[f].pin == 0 && CanTake(Allocated(s, page), f)
    requires victim == VictimOf(Allocated(s, page), f) && v == Vacated(Allocated(s, page), id, f)
    requires t == Occupied(v, page, f, v.frames[f].dirty)
                  .(unwritten := v.unwritten[page := id], clock := v.clock + 1,
                    ops := v.ops[id := Op(Create, page, f, victim, CreatedPhase(victim), v.clock)])
    ensures victim == VictimOf(s, f) && t == Next(s, CreatePage(id, page, f))
  {
    TakeInTwo(s, id, page, f, s.frames[f].dirty);
  }

  /** What finding a frame relies on. */
  ghost predicate Findable(s: Pool) {
    && (s.free != [] ==> 0 <= s.free[|s.free| - 1] < |s.frames| && s.free[|s.free| - 1] !in s.evictable)
    && (forall f :: f in s.evictable ==> 0 <= f < |s.frames| && s.frames[f].page.Some?)
    && (forall f :: CanTake(s, f) ==> s.frames[f].pin == 0)
  }

  lemma SoundIsFindable(s: Pool)
    requires Invariant(s)
    ensures Findable(s)
  {
    if s.free != [] {
      assert s.free[|s.free| - 1] in s.free;
      assert FrameOk(s, s.free[|s.free| - 1]);
    }
    forall f | f in s.evictable ensures 0 <= f < |s.frames| && s.frames[f].page.Some? {
      assert FrameOk(s, f);
    }
    forall f | CanTake(s, f) ensures s.frames[f].pin == 0 { TakenIsUnpinned(s, f); }
  }

  /** What pinning a cached page relies on. */
  lemma CachedFrame(s: Pool, page: PageId)
    requires Invariant(s) && page in s.table
    ensures var f := s.table[page];
            0 <= f < |s.frames| && s.frames[f].pin >= 0 && (s.frames[f].pin > 0 ==> f !in s.evictable)
  {
    assert PageOk(s, page);
    assert FrameOk(s, s.table[page]);
  }

  lemma LoadedCanPublish(s: Pool, id: OpId, buffer: Data)
    requires Invariant(s) && At(s, id, MissLoaded(buffer))
    ensures Enabled(s, Publish(id))
  {
    assert OpOk(s, id) && PageOk(s, s.ops[id].page);
    FrameUnlocked(s, id);
  }

  lemma WrittenCanEnd(s: Pool, id: OpId)
    requires Invariant(s) && At(s, id, FlushWritten)
    ensures Enabled(s, EndFlush(id))
  {
    assert OpOk(s, id);
  }

  lemma HolderCanWrite(s: Pool, id: OpId, bytes: Data)
    requires Invariant(s) && At(s, id, Holding) && s.ops[id].kind != Read
    ensures Enabled(s, WriteMarked(id, bytes))
  {
    assert OpOk(s, id) && PageOk(s, s.ops[id].page);
  }

  /** A page allocated on disk and nowhere else. */
  ghost function Allocated(s: Pool, page: PageId): Pool { s.(disk := s.disk[page := ZeroPage()]) }

  lemma AllocatedIsFindable(s: Pool, page: PageId)
    requires Findable(s)
    ensures Findable(Allocated(s, page))
    ensures forall f :: CanTake(Allocated(s, page), f) <==> CanTake(s, f)
  {
    forall f | CanTake(Allocated(s, page), f) ensures s.frames[f].pin == 0 { assert CanTake(s, f); }
  }

  lemma AllocateKeeps(s: Pool, page: PageId, t: Pool)
    requires Invariant(s) && page !in s.disk && t == Allocated(s, page)
    ensures Invariant(t)
  {
    forall j | j in t.ops ensures OpOk(t, j) { assert OpOk(s, j); }
    forall i, j | i in t.ops && j in t.ops && i != j ensures PairOk(t, i, j) { assert PairOk(s, i, j); }
    forall f | 0 <= f < |t.frames| ensures FrameOk(t, f) { assert FrameOk(s, f); }
    forall p ensures PageOk(t, p) { assert PageOk(s, p); }
    Together(t);
  }

  class BufferPoolManager {
    var frames: seq<PoolFrame>
    var free: seq<int>
    var table: map<PageId, int>
    var fetches: map<PageId, Channel>
    var flushes: map<PageId, Channel>
    var disk: map<PageId, Data>
    const evictor: Evictor.ClockEvictor
    ghost var delivered: set<OpId>
    ghost var ops: map<OpId, Op>
    ghost var unwritten: map<PageId, OpId>
    ghost var clock: int

    ghost predicate Wired()
      reads this, evictor
    {
      && evictor.Valid() && |evictor.eligible| == |frames|
      && (forall i, j :: 0 <= i < j < |frames| ==> frames[i] != frames[j])
      && (forall i :: 0 <= i < |frames| ==> frames[i].id == i)
    }

    ghost function State(): Pool
      reads this, evictor, frames
    {
      Pool(Values(frames), free, table, Members(evictor.eligible), fetches, flushes, delivered, disk, ops,
          unwritten, clock)
    }

    ghost predicate Valid()
      reads this, evictor, frames
    {
      Wired() && Invariant(State())
    }

    constructor (size: nat, disk: map<PageId, Data>)
      ensures Valid() && State() == NewPool(size, disk)
    {
      var cells := NewFrames(size);
      frames := cells;
      free := seq(size, i => i);
      table, fetches, flushes := map[], map[], map[];
      this.disk := disk;
      evictor := new Evictor.ClockEvictor(size);
      delivered, ops, unwritten, clock := {}, map[], map[], 0;
      new;
      assert Members(evictor.eligible) == {};
      assert Values(frames) == NewPool(size, disk).frames;
      NewPoolIsSound(size, disk);
    }

    /** Pins a frame, and takes it out of the evictor when that was its first pin. */
    method PinFrame(f: int)
      requires Wired() && 0 <= f < |frames| && frames[f].pin >= 0
      requires frames[f].pin > 0 ==> !evictor.eligible[f]
      modifies evictor, frames[f]
      ensures Wired()
      ensures Values(frames) == old(Values(frames))[f := Pin(old(frames[f].Value()))]
      ensures Members(evictor.eligible) == old(Members(evictor.eligible)) - {f}
    {
      var previous := frames[f].IncrementPinCount();
      if previous == 0 {
        evictor.Remove(f);
      }
    }

    /** Unpins a frame, and gives it to the evictor when that was its last pin. */
    method UnpinFrame(f: int)
      requires Wired() && 0 <= f < |frames| && frames[f].pin > 0
      modifies evictor, frames[f]
      ensures Wired()
      ensures Values(frames) == old(Values(frames))[f := old(frames[f].Value()).(pin := old(frames[f].pin) - 1)]
      ensures Members(evictor.eligible) ==
              old(Members(evictor.eligible)) + if old(frames[f].pin) == 1 then {f} else {}
    {
      var previous := frames[f].DecrementPinCount();
      if previous == 1 {
        evictor.Add(f);
      }
    }

    // -------------------------------------------------------------- finding a frame

    /** The evictor's victim: its page leaves the table, and a dirty one is copied to be flushed. */
    method EvictPage() returns (evicted: Option<(int, Option<Victim>)>)
      requires Wired() && forall f :: f in Members(evictor.eligible) ==> f < |frames| && frames[f].page.Some?
      modifies this`table, evictor
      ensures Wired()
      ensures match evicted
              case None => old(Members(evictor.eligible)) == {} && Members(evictor.eligible) == {}
                  && table == old(table)
              case Some((f, victim)) =>
                && f in old(Members(evictor.eligible)) && 0 <= f < |frames| && frames[f].page.Some?
                && Members(evictor.eligible) == old(Members(evictor.eligible)) - {f}
                && table == old(table) - {frames[f].page.value}
                && victim == if frames[f].dirty then Some(Victim(frames[f].page.value, frames[f].data)) else None
    {
      ghost var evictable := Members(evictor.eligible);
      var choice := evictor.Victim();
      if choice.None? {
        assert Members(evictor.eligible) == evictable == {};
        return None;
      }
      var f: int := choice.value;
      assert f in evictable && Members(evictor.eligible) == evictable - {f};
      var frame := frames[f];
      table := table - {frame.page.value};
      evicted := Some((f, if frame.dirty then Some(Victim(frame.page.value, frame.data)) else None));
    }

    /** An evicted frame; the flush of a dirty victim is announced. */
    method EvictFrame(id: OpId) returns (found: Option<(int, Option<Victim>)>)
      requires Wired() && free == []
      requires forall f :: f in Members(evictor.eligible) ==> f < |frames| && frames[f].page.Some?
      modifies this`table, this`flushes, evictor
      ensures Wired()
      ensures match found
              case None => (forall f :: !CanTake(old(State()), f)) && State() == old(State())
              case Some((f, victim)) =>
                && CanTake(old(State()), f) && victim == VictimOf(old(State()), f)
                && State() == Vacated(old(State()), id, f)
    {
      found := EvictPage();
      if found.Some? && found.value.1.Some? {
        flushes := flushes[found.value.1.value.page := Channel(id, {})];
      }
    }

    /** The last free frame, or else an evicted one. */
    method FindFrame(id: OpId) returns (found: Option<(int, Option<Victim>)>)
      requires Wired() && Findable(State())
      modifies this`free, this`table, this`flushes, evictor
      ensures Wired()
      ensures match found
              case None => (forall f :: !CanTake(old(State()), f)) && State() == old(State())
              case Some((f, victim)) =>
                && CanTake(old(State()), f) && old(State()).frames[f].pin == 0
                && victim == VictimOf(old(State()), f) && State() == Vacated(old(State()), id, f)
    {
      if free == [] {
        found := EvictFrame(id);
      } else {
        ghost var s := State();
        var f := free[|free| - 1];
        free := free[..|free| - 1];
        assert CanTake(s, f) && s.evictable - {f} == s.evictable;
        found := Some((f, None));
      }
    }

    /** Puts a page on a frame that was found for it, pins the frame and maps the page to it. */
    method Occupy(page: PageId, f: int, dirty: bool)
      requires Wired() && 0 <= f < |frames| && frames[f].pin == 0
      modifies this`table, evictor, frames[f]
      ensures Wired() && State() == Occupied(old(State()), page, f, dirty)
    {
      table := table[page := f];
      frames[f].page := Some(page);
      frames[f].dirty := dirty;
      PinFrame(f);
    }

    // -------------------------------------------------------------- fetching

    /** A cached page: pins its frame. */
    method PinCached(id: OpId, kind: Kind, page: PageId, f: int)
      requires Wired() && Enabled(State(), Hit(id, kind, page)) && f == table[page]
      requires frames[f].pin >= 0 && (frames[f].pin > 0 ==> !evictor.eligible[f])
      modifies this`ops, this`clock, evictor, frames[f]
      ensures Wired() && State() == Next(old(State()), Hit(id, kind, page))
    {
      ghost var s := State();
      PinFrame(f);
      ops, clock := ops[id := Op(kind, page, f, None, HitCheck, clock)], clock + 1;
      assert State().frames == Next(s, Hit(id, kind, page)).frames;
    }

    /** Puts the page on the frame found and announces its fetch. */
    method Announce(id: OpId, kind: Kind, page: PageId, f: int, victim: Option<Victim>)
      requires Wired() && 0 <= f < |frames| && frames[f].pin == 0
      modifies this`table, this`fetches, this`ops, this`clock, evictor, frames[f]
      ensures Wired()
      ensures State() == Occupied(old(State()), page, f, false)
                         .(fetches := old(fetches)[page := Channel(id, {})], clock := old(clock) + 1,
                           ops := old(ops)[id := Op(kind, page, f, victim, MissCheck, old(clock))])
    {
      Occupy(page, f, false);
      fetches := fetches[page := Channel(id, {})];
      ops, clock := ops[id := Op(kind, page, f, victim, MissCheck, clock)], clock + 1;
    }

    /** A page that is not cached: claims a frame for it and announces the fetch, unless every frame
        is pinned. */
    method Claim(id: OpId, kind: Kind, page: PageId) returns (start: Start)
      requires Wired() && Findable(State())
      requires id !in ops && kind != Create && Fetchable(State(), page) && page !in table
      modifies this, evictor, frames
      ensures Wired()
      ensures match start
              case Cached(_) => false
              case Claimed(f, victim) =>
                && Enabled(old(State()), Miss(id, kind, page, f)) && victim == VictimOf(old(State()), f)
                && State() == Next(old(State()), Miss(id, kind, page, f))
              case BufferFull => State() == old(State()) && forall f :: !CanTake(State(), f)
    {
      ghost var s := State();
      var found := FindFrame(id);
      if found.None? {
        return BufferFull;
      }
      var f, victim := found.value.0, found.value.1;
      Announce(id, kind, page, f, victim);
      MissInTwo(s, id, kind, page, f, State());
      start := Claimed(f, victim);
    }

    /** The page-table section of a fetch: pins the frame of a cached page, or claims a frame for the
        page and announces the fetch; with every frame pinned it changes nothing. */
    method StartFetch(id: OpId, kind: Kind, page: PageId) returns (start: Start)
      requires Valid() && id !in ops && kind != Create && Fetchable(State(), page)
      modifies this, evictor, frames
      ensures Valid()
      ensures match start
              case Cached(f) =>
                && Enabled(old(State()), Hit(id, kind, page)) && f == old(table)[page]
                && State() == Next(old(State()), Hit(id, kind, page))
                && id in ops && ops[id].kind == kind && ops[id].page == page && ops[id].frame == f
              case Claimed(f, victim) =>
                && Enabled(old(State()), Miss(id, kind, page, f)) && victim == VictimOf(old(State()), f)
                && State() == Next(old(State()), Miss(id, kind, page, f))
                && id in ops && ops[id].kind == kind && ops[id].page == page && ops[id].frame == f
              case BufferFull => State() == old(State()) && page !in table && forall f :: !CanTake(State(), f)
    {
      ghost var s := State();
      if page in table {
        CachedFrame(s, page);
        start := Cached(table[page]);
        PinCached(id, kind, page, table[page]);
        Stepped(s, Hit(id, kind, page), State());
      } else {
        SoundIsFindable(s);
        start := Claim(id, kind, page);
        if start.Claimed? { Stepped(s, Miss(id, kind, page, start.frame), State()); }
      }
    }

    /** Subscribes to the fetch of the page if one is in flight. */
    method WaitForPageFetch(id: OpId, page: PageId) returns (subscribed: bool)
      requires Valid() && At(State(), id, HitCheck) && ops[id].page == page
      modifies this`fetches, this`ops
      ensures Valid()
      ensures State() == Next(old(State()), FindFetch(id)) && (subscribed <==> page in old(fetches))
    {
      ghost var s := State();
      subscribed := page in fetches;
      if subscribed {
        fetches := fetches[page := Subscribe(fetches[page], id)];
      }
      ops := ops[id := ops[id].(phase := if subscribed then HitWaiting else Pinned)];
      Stepped(s, FindFetch(id), State());
    }

    /** Subscribes to the flush of the page if one is in flight. */
    method WaitForPageFlush(id: OpId, page: PageId) returns (subscribed: bool)
      requires Valid() && At(State(), id, MissCheck) && ops[id].page == page
      modifies this`flushes, this`ops
      ensures Valid()
      ensures State() == Next(old(State()), FindFlush(id)) && (subscribed <==> page in old(flushes))
    {
      ghost var s := State();
      subscribed := page in flushes;
      if subscribed {
        flushes := flushes[page := Subscribe(flushes[page], id)];
      }
      ops := ops[id := ops[id].(phase := if subscribed then MissWaiting else MissReading)];
      Stepped(s, FindFlush(id), State());
    }

    /** Receiving a message and taking the frame's lock change nothing the manager has. */
    ghost method Resume(step: Step)
      requires Valid() && Enabled(State(), step) && (step.WakeFetched? || step.WakeFlushed? || step.Acquire?)
      modifies this`ops, this`delivered
      ensures Valid() && State() == Next(old(State()), step)
    {
      var s := State();
      ops, delivered := Next(s, step).ops, Next(s, step).delivered;
      Stepped(s, step, State());
    }

    /** Reads the page from disk into the fetch's own buffer. */
    method ReadPage(id: OpId, page: PageId) returns (buffer: Data)
      requires Valid() && At(State(), id, MissReading) && ops[id].page == page
      modifies this`ops
      ensures Valid() && Enabled(old(State()), ReadDisk(id)) && State() == Next(old(State()), ReadDisk(id))
      ensures State().ops[id].phase == MissLoaded(buffer)
    {
      ghost var s := State();
      assert OpOk(s, id);
      buffer := disk[page];
      ops := ops[id := ops[id].(phase := MissLoaded(buffer))];
      Stepped(s, ReadDisk(id), State());
    }

    /** Fills the frame and tells the subscribers that the fetch is over. */
    method FillFrame(id: OpId, page: PageId, f: int, buffer: Data)
      requires Wired() && Enabled(State(), Publish(id)) && At(State(), id, MissLoaded(buffer))
      requires ops[id].page == page && ops[id].frame == f
      modifies this`fetches, this`ops, this`delivered, frames[f]
      ensures Wired() && State() == Next(old(State()), Publish(id))
    {
      ghost var s := State();
      frames[f].data := buffer;
      delivered := delivered + fetches[page].subscribers;
      fetches := fetches - {page};
      ops := ops[id := ops[id].(phase := if ops[id].victim.Some? then Flushing else Pinned)];
      assert State().frames == Next(s, Publish(id)).frames;
    }

    /** Ends a fetch: nobody else has the frame locked then. */
    method PublishFetch(id: OpId, page: PageId, f: int, buffer: Data)
      requires Valid() && At(State(), id, MissLoaded(buffer)) && ops[id].page == page && ops[id].frame == f
      modifies this`fetches, this`ops, this`delivered, frames
      ensures Valid() && Enabled(old(State()), Publish(id)) && State() == Next(old(State()), Publish(id))
    {
      ghost var s := State();
      LoadedCanPublish(s, id, buffer);
      FillFrame(id, page, f, buffer);
      Stepped(s, Publish(id), State());
    }

    /** Writes the victim's copy to disk. */
    method WriteVictim(id: OpId, victim: Victim)
      requires Valid() && At(State(), id, Flushing) && ops[id].victim == Some(victim)
      modifies this`disk, this`ops
      ensures Valid() && State() == Next(old(State()), WriteFlush(id))
    {
      ghost var s := State();
      disk := disk[victim.page := victim.copy];
      ops := ops[id := ops[id].(phase := FlushWritten)];
      Stepped(s, WriteFlush(id), State());
    }

    method CloseFlush(id: OpId, victim: Victim)
      requires Wired() && Enabled(State(), EndFlush(id)) && ops[id].victim == Some(victim)
      modifies this`flushes, this`ops, this`delivered
      ensures Wired() && State() == Next(old(State()), EndFlush(id))
    {
      delivered := delivered + flushes[victim.page].subscribers;
      flushes := flushes - {victim.page};
      ops := ops[id := ops[id].(phase := Pinned, victim := None)];
    }

    /** Removes the flush and tells the subscribers that it is over. */
    method FinishFlush(id: OpId, victim: Victim)
      requires Valid() && At(State(), id, FlushWritten) && ops[id].victim == Some(victim)
      modifies this`flushes, this`ops, this`delivered
      ensures Valid() && Enabled(old(State()), EndFlush(id)) && State() == Next(old(State()), EndFlush(id))
    {
      ghost var s := State();
      WrittenCanEnd(s, id);
      CloseFlush(id, victim);
      Stepped(s, EndFlush(id), State());
    }

    // -------------------------------------------------------------- creating

    /** Puts the created page on the frame found; the frame keeps its bytes and its dirty flag. */
    method Introduce(id: OpId, page: PageId, f: int, victim: Option<Victim>)
      requires Wired() && 0 <= f < |frames| && frames[f].pin == 0
      modifies this`table, this`ops, this`unwritten, this`clock, evictor, frames[f]
      ensures Wired()
      ensures State() == Occupied(old(State()), page, f, old(frames[f].dirty))
                         .(unwritten := old(unwritten)[page := id], clock := old(clock) + 1,
                           ops := old(ops)[id := Op(Create, page, f, victim, CreatedPhase(victim), old(clock))])
    {
      var dirty := frames[f].dirty;
      Occupy(page, f, dirty);
      unwritten := unwritten[page := id];
      ops, clock := ops[id := Op(Create, page, f, victim, CreatedPhase(victim), clock)], clock + 1;
    }

    method CreateOnFrame(id: OpId, page: PageId) returns (created: Outcome<(int, Option<Victim>), ()>)
      requires Wired() && Findable(State()) && id !in ops && page !in disk
      modifies this, evictor, frames
      ensures Wired()
      ensures match created
              case Done((f, victim)) =>
                && Enabled(old(State()), CreatePage(id, page, f)) && victim == VictimOf(old(State()), f)
                && State() == Next(old(State()), CreatePage(id, page, f))
              case Failed(_) => false
              case Panicked => State() == Allocated(old(State()), page) && forall f :: !CanTake(State(), f)
    {
      ghost var s := State();
      disk := disk[page := Zeros(PAGE_SIZE)];
      AllocatedIsFindable(s, page);
      var found := FindFrame(id);
      if found.None? {
        return Panicked;
      }
      CreateWith(id, page, found.value.0, found.value.1, s);
      created := Done(found.value);
    }

    method CreateWith(id: OpId, page: PageId, f: int, victim: Option<Victim>, ghost s: Pool)
      requires Wired() && Enabled(s, CreatePage(id, page, f)) && s.frames[f].pin == 0 && CanTake(Allocated(s, page), f)
      requires victim == VictimOf(Allocated(s, page), f) && State() == Vacated(Allocated(s, page), id, f)
      modifies this`table, this`ops, this`unwritten, this`clock, evictor, frames[f]
      ensures Wired() && victim == VictimOf(s, f) && State() == Next(s, CreatePage(id, page, f))
    {
      ghost var v := State();
      Introduce(id, page, f, victim);
      CreateInTwo(s, id, page, f, victim, v, State());
    }

    /** Allocates a page and takes a frame for it. With every frame pinned the code panics, and the page
        stays allocated. */
    method StartCreate(id: OpId, page: PageId) returns (created: Outcome<(int, Option<Victim>), ()>)
      requires Valid() && id !in ops && page !in disk
      modifies this, evictor, frames
      ensures Valid()
      ensures match created
              case Done((f, victim)) =>
                && Enabled(old(State()), CreatePage(id, page, f)) && victim == VictimOf(old(State()), f)
                && State() == Next(old(State()), CreatePage(id, page, f))
                && id in ops && ops[id].kind == Create && ops[id].page == page && ops[id].frame == f
              case Failed(_) => false
              case Panicked => State() == Allocated(old(State()), page) && forall f :: !CanTake(State(), f)
    {
      ghost var s := State();
      SoundIsFindable(s);
      created := CreateOnFrame(id, page);
      if created.Done? {
        Stepped(s, CreatePage(id, page, created.value.0), State());
      } else {
        AllocateKeeps(s, page, State());
      }
    }

    // -------------------------------------------------------------- guards

    /** What a guard reads: unless its page was just created, the bytes last written to the page. */
    method ReadThroughGuard(id: OpId, f: int) returns (bytes: Data)
      requires Valid() && At(State(), id, Holding) && ops[id].frame == f && ops[id].page !in unwritten
      ensures PageOk(State(), ops[id].page) && HasBytes(State(), ops[id].page)
      ensures bytes == CurrentBytes(State(), ops[id].page)
    {
      GuardSees(State(), id);
      bytes := frames[f].data;
    }

    method WriteFrame(id: OpId, f: int, bytes: Data)
      requires Wired() && Enabled(State(), WriteMarked(id, bytes)) && ops[id].frame == f
      modifies this`unwritten, frames[f]
      ensures Wired() && State() == Next(old(State()), WriteMarked(id, bytes))
    {
      ghost var s := State();
      frames[f].data := bytes;
      frames[f].dirty := true;
      unwritten := unwritten - {ops[id].page};
      assert State().frames == Next(s, WriteMarked(id, bytes)).frames;
    }

    /** Writing the whole page through a write guard, and `mark_dirty`. */
    method WriteThroughGuard(id: OpId, f: int, bytes: Data)
      requires Valid() && At(State(), id, Holding) && ops[id].frame == f && ops[id].kind != Read
      modifies this`unwritten, frames
      ensures Valid() && Enabled(old(State()), WriteMarked(id, bytes))
      ensures State() == Next(old(State()), WriteMarked(id, bytes))
    {
      ghost var s := State();
      HolderCanWrite(s, id, bytes);
      WriteFrame(id, f, bytes);
      Stepped(s, WriteMarked(id, bytes), State());
    }

    method Release(id: OpId, f: int)
      requires Wired() && Enabled(State(), Drop(id)) && ops[id].frame == f
      modifies this`ops, evictor, frames[f]
      ensures Wired() && State() == Next(old(State()), Drop(id))
    {
      ghost var s := State();
      UnpinFrame(f);
      ops := ops - {id};
      DropInTwo(s, id, f, State());
    }

    /** Dropping a guard unpins the frame; the creator of a page has written it before. */
    method DropGuard(id: OpId, f: int)
      requires Valid() && At(State(), id, Holding) && ops[id].frame == f
      requires ops[id].page in unwritten ==> unwritten[ops[id].page] != id
      modifies this`ops, evictor, frames
      ensures Valid() && Enabled(old(State()), Drop(id)) && State() == Next(old(State()), Drop(id))
    {
      ghost var s := State();
      GuardCanEnd(s, id, ZeroPage());
      Release(id, f);
      Stepped(s, Drop(id), State());
    }
  }
}
