/**
 From the delay that a client asks for to the tick on which its timer fires, in src/common/pf_scheduler.c: stated of the
 calls and of whole runs, by the number of ticks that the delay amounts to.
 */
module TimerDelays {
  import opened WrapTime
  import opened PendingTimers
  import opened SlotLists
  import opened TimerCalls
  import opened TimerTicks

  /** The u-th timer is pending for h, half a tick before n ticks after the clock that was read. */
  ghost predicate DueOnTick(x: Timers, u: nat, h: Handle, clock: nat, n: nat, cycle: nat) {
    exists i :: 0 <= i < |x.pending| &&
      x.pending[i].uid == u && x.pending[i].owner == h && x.pending[i].when == Add32(clock, n * cycle - cycle / 2)
  }

  lemma InsertedIsDue(x: Timers, e: Timer, h: Handle, clock: nat, n: nat, cycle: nat)
    requires e.uid == x.nextUid && e.owner == h && e.when == Add32(clock, n * cycle - cycle / 2)
    ensures DueOnTick(x.(pending := Insert(x.pending, e)), x.nextUid, h, clock, n, cycle)
  {
    InsertMembers(x.pending, e);
    var i :| 0 <= i < |Insert(x.pending, e)| && Insert(x.pending, e)[i] == e;
  }

  /** The call added a timer. */
  predicate AddsOne(s: State, call: Call, cycle: nat)
    requires Fits(call, s.index.Keys) && 0 < cycle < TWO32
  {
    Apply(s, call, cycle).timers.nextUid == s.timers.nextUid + 1
  }

  /** An addition or a restart, if a slot is free for it, adds one timer that is due on the tick that the delay asks for. */
  lemma AddedForDelay(s: State, call: Call, cycle: nat, n: nat)
    requires Sound(s.timers) && Fits(call, s.index.Keys) && (call.Add? || call.Restart?)
    requires 0 < cycle && cycle + cycle / 2 < TWO32 && IsTicks(n, call.delay, cycle)
    ensures AddsOne(s, call, cycle) <==> s.timers.free != [] || (call.Restart? && Target(s, call.h) < |s.timers.pending|)
    ensures AddsOne(s, call, cycle) ==> DueOnTick(Apply(s, call, cycle).timers, s.timers.nextUid, call.h, call.clock, n, cycle)
  {
    TicksExactly(call.delay, cycle, n);
    AddingIsDue(if call.Add? then s.timers else RemoveBy(s, call.h, call).timers, call.h, call.clock, n, cycle);
  }

  lemma AddingIsDue(x: Timers, h: Handle, clock: nat, n: nat, cycle: nat)
    ensures x.free != [] ==> DueOnTick(Adding(x, h, Add32(clock, n * cycle - cycle / 2)), x.nextUid, h, clock, n, cycle)
  {
    if x.free != [] {
      InsertedIsDue(x, Pending(x.free[0], Add32(clock, n * cycle - cycle / 2), h, x.nextUid), h, clock, n, cycle);
    }
  }

  /** The delay asks for n ticks, and a tick and a half fits into the clock. */
  predicate AsksFor(n: nat, delay: nat, cycle: nat) {
    cycle + cycle / 2 < TWO32 && IsTicks(n, delay, cycle)
  }

  lemma AddsForDelay(s: State, h: Handle, delay: nat, clock: nat, cycle: nat)
    requires h in s.index && 0 < cycle < TWO32 && delay < TWO32
    ensures forall n :: AsksFor(n, delay, cycle) && s.timers.free != [] ==>
      DueOnTick(AddAt(s, h, Deadline(delay, clock, cycle)).timers, s.timers.nextUid, h, clock, n, cycle)
  {
    forall n | AsksFor(n, delay, cycle) && s.timers.free != []
      ensures DueOnTick(AddAt(s, h, Deadline(delay, clock, cycle)).timers, s.timers.nextUid, h, clock, n, cycle)
    {
      TicksExactly(delay, cycle, n);
      AddingIsDue(s.timers, h, clock, n, cycle);
    }
  }

  lemma FilledStays(s: State, call: Call, cycle: nat, h: Handle, ix: nat)
    requires Sound(s.timers) && Fits(call, s.index.Keys) && 0 < cycle < TWO32 && IsFilled(s.timers, ix, h) && call != Link(h, ix)
    ensures var x := Apply(s, call, cycle).timers; IsFilled(x, ix, h) && x.taken[ix] == s.timers.taken[ix]
  {
  }

  lemma {:induction false} FilledStaysFilled(s: State, calls: seq<Call>, cycle: nat, h: Handle, ix: nat)
    requires Sound(s.timers) && (forall c <- calls :: Fits(c, s.index.Keys) && c != Link(h, ix)) && 0 < cycle < TWO32
    requires IsFilled(s.timers, ix, h)
    ensures var x := ApplyAll(s, calls, cycle).timers; IsFilled(x, ix, h) && x.taken[ix] == s.timers.taken[ix]
    decreases |calls|
  {
    if calls != [] {
      assert calls[0] in calls && forall c <- calls[1..] :: c in calls;
      FilledStays(s, calls[0], cycle, h, ix);
      ApplySound(s, calls[0], cycle);
      FilledStaysFilled(Apply(s, calls[0], cycle), calls[1..], cycle, h, ix);
    }
  }

  lemma FilledForDelay(s: State, fill: Call, cycle: nat, n: nat)
    requires Sound(s.timers) && fill.Fill? && Fits(fill, s.index.Keys) && IsEmpty(s.timers, fill.ix)
    requires 0 < cycle && cycle + cycle / 2 < TWO32 && IsTicks(n, fill.delay, cycle)
    ensures var x := Apply(s, fill, cycle).timers;
      Sound(x) && IsFilled(x, fill.ix, fill.h) && x.taken[fill.ix].when == Add32(fill.clock, n * cycle - cycle / 2)
  {
    TicksExactly(fill.delay, cycle, n);
    ApplySound(s, fill, cycle);
  }

  lemma LinkMakesTimer(s: State, h: Handle, ix: nat, cycle: nat, clock: nat, n: nat)
    requires h in s.index && 0 < cycle < TWO32
    requires IsFilled(s.timers, ix, h) && s.timers.taken[ix].when == Add32(clock, n * cycle - cycle / 2)
    ensures AddsOne(s, Link(h, ix), cycle)
    ensures DueOnTick(Apply(s, Link(h, ix), cycle).timers, s.timers.nextUid, h, clock, n, cycle)
  {
    InsertedIsDue(s.timers, Linked(s.timers, ix, h), h, clock, n, cycle);
  }

  /** So does an addition in sections, whatever others call between the filling of the slot and its linking. */
  lemma LinkedForDelay(s: State, fill: Call, between: seq<Call>, cycle: nat, n: nat)
    requires Sound(s.timers) && fill.Fill? && Fits(fill, s.index.Keys) && IsEmpty(s.timers, fill.ix)
    requires 0 < cycle && cycle + cycle / 2 < TWO32 && IsTicks(n, fill.delay, cycle)
    requires forall c <- between :: Fits(c, s.index.Keys) && c != Link(fill.h, fill.ix)
    ensures var s1 := ApplyAll(Apply(s, fill, cycle), between, cycle);
      && AddsOne(s1, Link(fill.h, fill.ix), cycle)
      && DueOnTick(Apply(s1, Link(fill.h, fill.ix), cycle).timers, s1.timers.nextUid, fill.h, fill.clock, n, cycle)
  {
    FilledForDelay(s, fill, cycle, n);
    var s0 := Apply(s, fill, cycle);
    FilledStaysFilled(s0, between, cycle, fill.h, fill.ix);
    LinkMakesTimer(ApplyAll(s0, between, cycle), fill.h, fill.ix, cycle, fill.clock, n);
  }

  // ---------------------------------------------------------------------------------------------
  // Which tick fires it

  function TickCount(xs: seq<Happening>): nat {
    if xs == [] then 0 else (if xs[0].Ticked? then 1 else 0) + TickCount(xs[1..])
  }

  /**
   The ticks up to the n-th come within half a cycle of the multiples of the cycle after the clock; the first tick of the run is
   the m-th.
   */
  predicate OnTime(xs: seq<Happening>, clock: nat, cycle: nat, m: nat, n: nat)
    decreases |xs|
  {
    xs == [] ||
    (if xs[0].Ticked? then
       && (m <= n ==> Sub32(xs[0].now, clock + m * cycle - cycle / 2) < cycle)
       && OnTime(xs[1..], clock, cycle, m + 1, n)
     else
       OnTime(xs[1..], clock, cycle, m, n))
  }

  /** The u-th timer has this deadline while it is pending. */
  predicate HasDeadline(p: seq<Timer>, u: nat, when: nat) {
    forall e <- p :: e.uid == u ==> e.when == when
  }

  lemma DeadlineKept(p: seq<Timer>, p': seq<Timer>, gone: set<nat>, next: nat, u: nat, when: nat)
    requires HasDeadline(p, u, when) && u < next && Before(p', next) == Except(p, gone)
    ensures HasDeadline(p', u, when)
  {
    BeforeMembers(p', next);
    ExceptMembers(p, gone);
  }

  lemma CallsKeepDeadline(s: State, calls: seq<Call>, cycle: nat, u: nat, when: nat)
    requires Sound(s.timers) && (forall c <- calls :: Fits(c, s.index.Keys)) && 0 < cycle < TWO32
    requires HasDeadline(s.timers.pending, u, when) && u < s.timers.nextUid
    ensures HasDeadline(ApplyAll(s, calls, cycle).timers.pending, u, when)
  {
    ApplyAllSound(s, calls, cycle);
    var x := ApplyAll(s, calls, cycle).timers;
    DeadlineKept(s.timers.pending, x.pending, Gone(x.removed) - Gone(s.timers.removed), s.timers.nextUid, u, when);
  }

  /** What fired had the deadline, and what is left still has it. */
  lemma DoneKeepsDeadline(x: Timers, y: Timers, fired: seq<Timer>, now: nat, u: nat, when: nat)
    requires TickDone(x, y, fired, now) && HasDeadline(x.pending, u, when) && u < x.nextUid
    ensures HasDeadline(y.pending, u, when) && HasDeadline(fired, u, when)
  {
    var gone := Gone(y.removed) - Gone(x.removed);
    DeadlineKept(x.pending, y.pending, gone + Uids(fired), x.nextUid, u, when);
    DueMembers(x.pending, now);
    assert HasDeadline(Due(x.pending, now), u, when);
    DeadlineKept(Due(x.pending, now), fired, gone, x.nextUid, u, when);
  }

  lemma DeadlineOf(p: seq<Timer>, u: nat, when: nat) returns (e: Timer)
    requires HasDeadline(p, u, when) && u in Uids(p)
    ensures e in p && e.when == when
  {
    var i := UidAt(p, u);
    e := p[i];
  }

  /** A tick fires the timer only if its deadline is reached, and then does not leave it. */
  lemma TickAndDeadline(x: Timers, y: Timers, fired: seq<Timer>, now: nat, u: nat, when: nat)
    requires TickDone(x, y, fired, now) && HasDeadline(x.pending, u, when) && u < x.nextUid
    requires (forall e <- fired :: Expired(now, e.when)) && Due(y.pending, now) == []
    ensures HasDeadline(y.pending, u, when)
    ensures u in Uids(fired) ==> Expired(now, when)
    ensures u in Uids(y.pending) ==> !Expired(now, when)
  {
    DoneKeepsDeadline(x, y, fired, now, u, when);
    if u in Uids(fired) {
      var e := DeadlineOf(fired, u, when);
    }
    if u in Uids(y.pending) {
      var e := DeadlineOf(y.pending, u, when);
      DueMembers(y.pending, now);
    }
  }

  lemma StepKeepsGone(s: State, x: Happening, cycle: nat)
    requires Sound(s.timers) && FitsNow(s, x, cycle) && (x.Ticked? ==> Ready(s, x.script, cycle, x.now, x.base))
    ensures var y := AfterOne(s, x, cycle).state.timers; Gone(s.timers.removed) <= Gone(y.removed) && s.timers.nextUid <= y.nextUid
  {
    match x {
      case Called(calls) => ApplyAllSound(s, calls, cycle);
      case Ticked(script, now, base) => TickFires(s, script, cycle, now, base);
    }
  }

  lemma {:induction false} LifeKeepsGone(s: State, xs: seq<Happening>, cycle: nat, fired: set<nat>)
    requires Sound(s.timers) && Accounted(s.timers, fired) && Life(s, xs, cycle)
    ensures Gone(s.timers.removed) <= Gone(Lived(s, xs, cycle).state.timers.removed)
    decreases |xs|
  {
    if xs != [] {
      var r := AfterOne(s, xs[0], cycle);
      StepKeepsGone(s, xs[0], cycle);
      StepAccounts(s, xs[0], cycle, fired);
      LifeKeepsGone(r.state, xs[1..], cycle, fired + Uids(r.fired));
    }
  }

  /** The run as far as the u-th timer goes, when the next tick is the m-th since it was added. */
  ghost predicate Waiting(s: State, xs: seq<Happening>, cycle: nat, fired: set<nat>, u: nat, clock: nat, m: nat, n: nat) {
    && Sound(s.timers) && Accounted(s.timers, fired) && Life(s, xs, cycle)
    && u < s.timers.nextUid && u !in fired && HasDeadline(s.timers.pending, u, Add32(clock, n * cycle - cycle / 2))
    && 0 < cycle < 0x4000_0000 && m <= n && n * cycle <= 0x4000_0000 + 100_000_000
    && OnTime(xs, clock, cycle, m, n)
  }

  ghost predicate FiredOrGone(r: Result, u: nat) {
    u in Uids(r.fired) || u in Gone(r.state.timers.removed)
  }

  /** What the first happening of the run does to the timer. */
  lemma StepWaits(s: State, xs: seq<Happening>, cycle: nat, fired: set<nat>, u: nat, clock: nat, m: nat, n: nat)
    requires Waiting(s, xs, cycle, fired, u, clock, m, n) && xs != []
    ensures var r := AfterOne(s, xs[0], cycle); var m' := m + if xs[0].Ticked? then 1 else 0;
      && (m' > n ==> FiredOrGone(r, u))
      && (m' <= n ==> u !in Uids(r.fired) && Waiting(r.state, xs[1..], cycle, fired + Uids(r.fired), u, clock, m', n))
  {
    StepAccounts(s, xs[0], cycle, fired);
    StepKeepsGone(s, xs[0], cycle);
    StepAndDeadline(s, xs[0], cycle, u, Add32(clock, n * cycle - cycle / 2));
    if xs[0].Ticked? {
      ReachedOnTick(xs[0].now, clock, cycle, m, n);
    }
  }

  lemma StepAndDeadline(s: State, x: Happening, cycle: nat, u: nat, when: nat)
    requires Sound(s.timers) && FitsNow(s, x, cycle) && (x.Ticked? ==> Ready(s, x.script, cycle, x.now, x.base))
    requires HasDeadline(s.timers.pending, u, when) && u < s.timers.nextUid
    ensures var r := AfterOne(s, x, cycle);
      && HasDeadline(r.state.timers.pending, u, when)
      && (u in Uids(r.fired) ==> x.Ticked? && Expired(x.now, when))
      && (u in Uids(r.state.timers.pending) ==> x.Called? || !Expired(x.now, when))
  {
    match x {
      case Called(calls) => CallsKeepDeadline(s, calls, cycle, u, when);
      case Ticked(script, now, base) =>
        TickFires(s, script, cycle, now, base);
        var r := Tick(s, script, cycle, now, base);
        TickAndDeadline(s.timers, r.state.timers, r.fired, now, u, when);
    }
  }

  lemma {:induction false} WaitsForItsTick(s: State, xs: seq<Happening>, cycle: nat, fired: set<nat>, u: nat, clock: nat,
                                           m: nat, n: nat)
    requires Waiting(s, xs, cycle, fired, u, clock, m, n)
    ensures var r := Lived(s, xs, cycle);
      && (m + TickCount(xs) <= n ==> u !in Uids(r.fired))
      && (m + TickCount(xs) > n ==> FiredOrGone(r, u))
    decreases |xs|
  {
    if xs != [] {
      StepWaits(s, xs, cycle, fired, u, clock, m, n);
      StepAccounts(s, xs[0], cycle, fired);
      var r, m' := AfterOne(s, xs[0], cycle), m + if xs[0].Ticked? then 1 else 0;
      UidsJoin(r.fired, Lived(r.state, xs[1..], cycle).fired);
      LifeKeepsGone(r.state, xs[1..], cycle, fired + Uids(r.fired));
      if m' <= n {
        WaitsForItsTick(r.state, xs[1..], cycle, fired + Uids(r.fired), u, clock, m', n);
      }
    }
  }

  /**
   The delay is kept, over every run of calls and ticks after the timer was added: the n-1 ticks that come first do not fire
   it, and by the n-th tick it has fired, unless it was removed. The cycle is below 2^30 us, and each of these ticks comes
   within half a cycle of its time.
   */
  lemma FiresOnItsTick(s: State, xs: seq<Happening>, cycle: nat, fired: set<nat>, u: nat, h: Handle, clock: nat, delay: nat, n: nat)
    requires Sound(s.timers) && Accounted(s.timers, fired) && Life(s, xs, cycle)
    requires 0 < cycle < 0x4000_0000 && delay < TWO32 && IsTicks(n, delay, cycle)
    requires DueOnTick(s.timers, u, h, clock, n, cycle) && OnTime(xs, clock, cycle, 1, n)
    ensures var r := Lived(s, xs, cycle);
      && (TickCount(xs) < n ==> u !in Uids(r.fired))
      && (TickCount(xs) >= n ==> (u in Uids(r.fired) <==> u !in Gone(r.state.timers.removed)))
  {
    var i :| 0 <= i < |s.timers.pending| && s.timers.pending[i].uid == u && s.timers.pending[i].owner == h &&
      s.timers.pending[i].when == Add32(clock, n * cycle - cycle / 2);
    assert u in Uids(s.timers.pending);
    FewTicks(delay, cycle, n);
    TicksExactly(delay, cycle, n);
    forall e | e in s.timers.pending && e.uid == u
      ensures e == s.timers.pending[i]
    {
      SameUid(s.timers.pending, e, s.timers.pending[i]);
    }
    WaitsForItsTick(s, xs, cycle, fired, u, clock, 1, n);
    LifeAccounts(s, xs, cycle, fired);
  }

  /** From the call to the tick: an addition or a restart at any point of a life of the scheduler. */
  lemma DelayIsKept(s: State, call: Call, xs: seq<Happening>, cycle: nat, fired: set<nat>, n: nat)
    requires Sound(s.timers) && Accounted(s.timers, fired) && Fits(call, s.index.Keys) && (call.Add? || call.Restart?)
    requires 0 < cycle < 0x4000_0000 && IsTicks(n, call.delay, cycle) && AddsOne(s, call, cycle)
    requires Life(Apply(s, call, cycle), xs, cycle) && OnTime(xs, call.clock, cycle, 1, n)
    ensures var r := Lived(Apply(s, call, cycle), xs, cycle);
      && (TickCount(xs) < n ==> s.timers.nextUid !in Uids(r.fired))
      && (TickCount(xs) >= n ==> (s.timers.nextUid in Uids(r.fired) <==> s.timers.nextUid !in Gone(r.state.timers.removed)))
  {
    AddedForDelay(s, call, cycle, n);
    ApplySound(s, call, cycle);
    ApplyAccounted(s, call, cycle, fired);
    FiresOnItsTick(Apply(s, call, cycle), xs, cycle, fired, s.timers.nextUid, call.h, call.clock, call.delay, n);
  }
}
