/** Second-chance replacement: which frame a sweep of the clock hand picks, and how long a frame can
    be passed over. */
module Evictor {
  import opened Outcomes

  /** Hand position, reference bits and eligibility of the frames. */
  datatype Clock = Clock(hand: nat, chances: seq<bool>, eligible: seq<bool>)

  predicate WellFormed(c: Clock) {
    |c.chances| == |c.eligible| && (|c.eligible| > 0 ==> c.hand < |c.eligible|)
  }

  /** Frame reached `d` places on from the hand. */
  function At(c: Clock, d: nat): (f: nat)
    requires WellFormed(c) && d < |c.eligible|
    ensures f < |c.eligible|
  {
    if c.hand + d < |c.eligible| then c.hand + d else c.hand + d - |c.eligible|
  }

  /** Places from the hand to a frame. */
  function Distance(c: Clock, f: nat): (d: nat)
    requires WellFormed(c) && f < |c.eligible|
    ensures d < |c.eligible| && At(c, d) == f
  {
    if f >= c.hand then f - c.hand else f + |c.eligible| - c.hand
  }

  /** Next place after frame `f`. */
  function After(c: Clock, f: nat): nat
    requires f < |c.eligible|
  {
    if f + 1 == |c.eligible| then 0 else f + 1
  }

  function Count(flags: seq<bool>): nat {
    if flags == [] then 0 else Count(flags[..|flags| - 1]) + if flags[|flags| - 1] then 1 else 0
  }

  predicate Unprotected(c: Clock, f: nat)
    requires WellFormed(c) && f < |c.eligible|
  {
    c.eligible[f] && !c.chances[f]
  }

  /** Frame `f` is the first from the hand that has a clear bit. */
  ghost predicate FirstUnprotected(c: Clock, f: nat)
    requires WellFormed(c)
  {
    && f < |c.eligible| && Unprotected(c, f)
    && forall g :: 0 <= g < |c.eligible| && Unprotected(c, g) ==> Distance(c, f) <= Distance(c, g)
  }

  /** Frame `f` is the first eligible one from the hand. */
  ghost predicate FirstEligible(c: Clock, f: nat)
    requires WellFormed(c)
  {
    && f < |c.eligible| && c.eligible[f]
    && forall g :: 0 <= g < |c.eligible| && c.eligible[g] ==> Distance(c, f) <= Distance(c, g)
  }

  ghost predicate SomeUnprotected(c: Clock)
    requires WellFormed(c)
  {
    exists g :: 0 <= g < |c.eligible| && Unprotected(c, g)
  }

  /** Reference bits after the eligible frames less than `k` places from the hand lost theirs. */
  ghost function Cleared(c: Clock, k: nat): (chances: seq<bool>)
    requires WellFormed(c)
    ensures |chances| == |c.chances|
    ensures forall g :: 0 <= g < |chances| ==> chances[g] == (c.chances[g] && !(c.eligible[g] && Distance(c, g) < k))
  {
    seq(|c.chances|, g requires 0 <= g < |c.chances| => c.chances[g] && !(c.eligible[g] && Distance(c, g) < k))
  }

  /** What a sweep answers and leaves. With no eligible frame: nothing. With an unprotected one: the
      first of those, and the bits of the eligible frames before it go. With all protected: every
      eligible frame loses its bit and the first of them is taken. */
  ghost predicate Sweeps(c: Clock, victim: Option<nat>, c': Clock)
    requires WellFormed(c)
  {
    match victim
    case None => (forall g :: 0 <= g < |c.eligible| ==> !c.eligible[g]) && c' == c
    case Some(f) =>
      && f < |c.eligible|
      && (if SomeUnprotected(c) then FirstUnprotected(c, f) else FirstEligible(c, f))
      && c' == Clock(After(c, f),
                     Cleared(c, if SomeUnprotected(c) then Distance(c, f) else |c.eligible|),
                     c.eligible[f := false])
  }

  lemma {:induction false} CountUpdate(flags: seq<bool>, f: nat, value: bool)
    requires f < |flags|
    ensures Count(flags[f := value]) == Count(flags) + (if value then 1 else 0) - (if flags[f] then 1 else 0)
  {
    var n := |flags| - 1;
    if f == n {
      assert flags[f := value][..n] == flags[..n];
    } else {
      assert flags[f := value][..n] == flags[..n][f := value];
      CountUpdate(flags[..n], f, value);
    }
  }

  lemma {:induction false} CountNone(flags: seq<bool>)
    ensures Count(flags) == 0 <==> forall f :: 0 <= f < |flags| ==> !flags[f]
  {
    if flags != [] {
      var n := |flags| - 1;
      CountNone(flags[..n]);
      if Count(flags) == 0 {
        forall f | 0 <= f < |flags| ensures !flags[f] {
          if f < n { assert !flags[..n][f]; }
        }
      }
    }
  }

  /** Before step `step` of the sweep: the hand is at `i`, the bits passed so far are gone, no frame
      passed was unprotected, and none passed for the second time is eligible. */
  ghost predicate Sweeping(c: Clock, chances: seq<bool>, step: nat, i: nat)
    requires WellFormed(c)
  {
    && step <= 2 * |c.eligible|
    && (|c.eligible| == 0 ==> i == c.hand)
    && (|c.eligible| > 0 ==> i == At(c, Place(c, step)))
    && chances == Cleared(c, step)
    && (forall g :: 0 <= g < |c.eligible| && Distance(c, g) < step ==> !Unprotected(c, g))
    && (forall g :: 0 <= g < |c.eligible| && Distance(c, g) < step - |c.eligible| ==> !c.eligible[g])
  }

  /** Places from the hand after `step` steps round the clock. */
  ghost function Place(c: Clock, step: nat): (d: nat)
    requires |c.eligible| > 0 && step <= 2 * |c.eligible|
    ensures d < |c.eligible|
  {
    if step < |c.eligible| then step else if step < 2 * |c.eligible| then step - |c.eligible| else 0
  }

  lemma Advance(c: Clock, step: nat, i: nat)
    requires WellFormed(c) && step < 2 * |c.eligible| && i == At(c, Place(c, step))
    ensures (i + 1) % |c.eligible| == After(c, i) == At(c, Place(c, step + 1))
    ensures Distance(c, i) == Place(c, step)
  {
    NextModulo(i, |c.eligible|);
  }

  lemma NextModulo(i: nat, n: nat)
    requires i < n
    ensures (i + 1) % n == if i + 1 == n then 0 else i + 1
  {
    if i + 1 < n {
      assert (i + 1) / n == 0;
    }
  }

  /** The hand goes up through the frame numbers and from the last one to 0. */
  lemma HandGoesUp(c: Clock, d: nat)
    requires WellFormed(c) && d < |c.eligible|
    ensures At(c, d) == (c.hand + d) % |c.eligible| && After(c, At(c, d)) == (c.hand + d + 1) % |c.eligible|
  {
    var n := |c.eligible|;
    Modulo(c.hand + d, n, At(c, d));
    Modulo(c.hand + d + 1, n, After(c, At(c, d)));
  }

  lemma Modulo(m: nat, n: nat, r: nat)
    requires r < n && (m == r || m == r + n)
    ensures m % n == r
  {
    if m == r {
      assert m / n == 0;
    } else {
      assert m / n == 1;
    }
  }

  /** A frame met with a clear bit is the one the sweep has to take. */
  lemma VictimFound(c: Clock, step: nat, i: nat, chances: seq<bool>)
    requires WellFormed(c) && step < 2 * |c.eligible| && Sweeping(c, chances, step, i)
    requires c.eligible[i] && !chances[i]
    ensures Sweeps(c, Some(i), Clock(After(c, i), chances, c.eligible[i := false]))
  {
    if step < |c.eligible| {
      assert Distance(c, i) == step;
      assert Unprotected(c, i);
    } else {
      assert Distance(c, i) == step - |c.eligible|;
      assert !SomeUnprotected(c);
      assert chances == Cleared(c, |c.eligible|);
    }
  }

  lemma NothingFound(c: Clock, chances: seq<bool>, i: nat)
    requires WellFormed(c) && Sweeping(c, chances, 2 * |c.eligible|, i)
    ensures Sweeps(c, None, Clock(i, chances, c.eligible))
  {
    forall g | 0 <= g < |c.eligible| ensures !c.eligible[g] {
      assert Distance(c, g) < |c.eligible|;
    }
    assert chances == c.chances;
  }

  /** A frame that is not eligible, or whose bit was set and is cleared, is passed over. */
  lemma PassedOver(c: Clock, step: nat, i: nat)
    requires WellFormed(c) && step < 2 * |c.eligible| && Sweeping(c, Cleared(c, step), step, i)
    requires c.eligible[i] ==> Cleared(c, step)[i]
    ensures Sweeping(c, if c.eligible[i] then Cleared(c, step)[i := false] else Cleared(c, step), step + 1, After(c, i))
  {
    Advance(c, step, i);
    var chances := if c.eligible[i] then Cleared(c, step)[i := false] else Cleared(c, step);
    forall g | 0 <= g < |c.eligible| && (Distance(c, g) == step || Distance(c, g) == step - |c.eligible|)
      ensures g == i
    {
      assert At(c, Distance(c, g)) == g;
    }
    assert chances == Cleared(c, step + 1);
  }

  class ClockEvictor {
    var hand: nat
    var chances: seq<bool>
    var eligible: seq<bool>
    var size: nat

    ghost predicate Valid()
      reads this
    {
      WellFormed(State()) && size == Count(eligible)
    }

    ghost function State(): Clock
      reads this
    {
      Clock(hand, chances, eligible)
    }

    constructor (poolSize: nat)
      ensures Valid()
      ensures State() == Clock(0, seq(poolSize, _ => false), seq(poolSize, _ => false))
    {
      hand, size := 0, 0;
      chances, eligible := seq(poolSize, _ => false), seq(poolSize, _ => false);
      new;
      CountNone(eligible);
    }

    method Add(f: nat)
      requires Valid() && f < |eligible|
      modifies this
      ensures Valid()
      ensures State() == Clock(old(hand), old(chances)[f := true], old(eligible)[f := true])
    {
      CountUpdate(eligible, f, true);
      if !eligible[f] {
        eligible := eligible[f := true];
        size := size + 1;
      }
      chances := chances[f := true];
    }

    method Remove(f: nat)
      requires Valid() && f < |eligible|
      modifies this
      ensures Valid()
      ensures State() == Clock(old(hand), old(chances), old(eligible)[f := false])
    {
      CountUpdate(eligible, f, false);
      if eligible[f] {
        eligible := eligible[f := false];
        size := size - 1;
      }
    }

    /** The size field always is the number of eligible frames. */
    method Size() returns (n: nat)
      requires Valid()
      ensures n == Count(eligible)
    {
      n := size;
    }

    /** Takes frame `i` out and leaves the hand past it. */
    method Evict(i: nat)
      requires Valid() && i < |eligible| && eligible[i]
      modifies this
      ensures Valid() && State() == Clock(After(old(State()), i), old(chances), old(eligible)[i := false])
    {
      CountUpdate(eligible, i, false);
      NextModulo(i, |eligible|);
      eligible := eligible[i := false];
      size := size - 1;
      hand := (i + 1) % |eligible|;
    }

    /** One step of the sweep: takes frame `i` if it is eligible with a clear bit, or passes it over
        and clears its bit if it is eligible. */
    method Visit(i: nat, ghost c: Clock, ghost step: nat) returns (taken: bool)
      requires Valid() && WellFormed(c) && step < 2 * |c.eligible|
      requires State() == c.(chances := chances) && Sweeping(c, chances, step, i)
      modifies this
      ensures Valid()
      ensures taken ==> Sweeps(c, Some(i), State())
      ensures !taken ==> State() == c.(chances := chances) && Sweeping(c, chances, step + 1, After(c, i))
    {
      Advance(c, step, i);
      taken := eligible[i] && !chances[i];
      if taken {
        VictimFound(c, step, i, chances);
        Evict(i);
      } else {
        PassedOver(c, step, i);
        if eligible[i] {
          chances := chances[i := false];
        }
      }
    }

    /** Sweeps at most twice round. */
    method Victim() returns (victim: Option<nat>)
      requires Valid()
      modifies this
      ensures Valid()
      ensures Sweeps(old(State()), victim, State())
      ensures victim.None? <==> Count(old(eligible)) == 0
    {
      ghost var c := State();
      var i: nat, len: nat := hand, |eligible|;
      CountNone(eligible);
      for step := 0 to 2 * len
        invariant Valid() && State() == c.(chances := chances)
        invariant Sweeping(c, chances, step, i)
      {
        Advance(c, step, i);
        var taken := Visit(i, c, step);
        if taken {
          return Some(i);
        }
        i := (i + 1) % len;
      }
      NothingFound(c, chances, i);
      hand := i;
      victim := None;
    }
  }

  // ---------------------------------------------------------------- starvation

  datatype Call = AddCall(frame: nat) | RemoveCall(frame: nat) | VictimCall(victim: Option<nat>)

  /** One call on the evictor, with what it returned. */
  ghost predicate Step(c: Clock, call: Call, c': Clock)
    requires WellFormed(c)
  {
    match call
    case AddCall(f) => f < |c.eligible| && c' == Clock(c.hand, c.chances[f := true], c.eligible[f := true])
    case RemoveCall(f) => f < |c.eligible| && c' == Clock(c.hand, c.chances, c.eligible[f := false])
    case VictimCall(v) => Sweeps(c, v, c')
  }

  /** A run of calls: `states[k]` is the clock before call `k`. */
  ghost predicate Run(states: seq<Clock>, calls: seq<Call>) {
    && |states| == |calls| + 1
    && (forall k :: 0 <= k < |states| ==> WellFormed(states[k]))
    && (forall k :: 0 <= k < |calls| ==> Step(states[k], calls[k], states[k + 1]))
  }

  function Victims(calls: seq<Call>): nat {
    if calls == [] then 0 else Victims(calls[..|calls| - 1]) + if calls[|calls| - 1].VictimCall? then 1 else 0
  }

  /** Steps the hand can still take before it must take frame `f`. */
  function Reserve(c: Clock, f: nat): (n: nat)
    requires WellFormed(c) && f < |c.eligible|
    ensures n < 2 * |c.eligible|
  {
    Distance(c, f) + if c.chances[f] then |c.eligible| else 0
  }

  /** A sweep that does not take an eligible frame takes another one and eats into its reserve. */
  lemma SweepUsesReserve(c: Clock, victim: Option<nat>, c': Clock, f: nat)
    requires WellFormed(c) && Sweeps(c, victim, c') && f < |c.eligible| && c.eligible[f] && victim != Some(f)
    ensures victim.Some? && WellFormed(c') && |c'.eligible| == |c.eligible| && c'.eligible[f]
    ensures Reserve(c', f) < Reserve(c, f)
  {
    var g := victim.value;
    var n := |c.eligible|;
    if SomeUnprotected(c) {
      if Distance(c, f) < Distance(c, g) {
        assert !Unprotected(c, f);
      }
    }
  }

  /** In any run, a frame that is eligible at the start and is neither added again nor removed is
      evicted by the time `victim` has been called twice as often as there are frames. */
  lemma {:induction false} NoStarvation(states: seq<Clock>, calls: seq<Call>, f: nat)
    requires Run(states, calls) && f < |states[0].eligible| && states[0].eligible[f]
    requires AddCall(f) !in calls && RemoveCall(f) !in calls && VictimCall(Some(f)) !in calls
    ensures |states[|calls|].eligible| == |states[0].eligible| && states[|calls|].eligible[f]
    ensures Victims(calls) + Reserve(states[|calls|], f) <= Reserve(states[0], f)
    ensures Victims(calls) < 2 * |states[0].eligible|
  {
    if calls != [] {
      var n := |calls| - 1;
      assert forall k :: 0 <= k < n ==> calls[..n][k] in calls;
      NoStarvation(states[..n + 1], calls[..n], f);
      var c, c' := states[n], states[n + 1];
      assert calls[n] in calls && Step(c, calls[n], c');
      match calls[n]
      case VictimCall(v) => SweepUsesReserve(c, v, c', f);
      case _ =>
    }
  }
}
