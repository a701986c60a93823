/**
 A whole tick of the scheduler in src/common/pf_scheduler.c, with everything that other code does while the mutex is
 not held: the callbacks, which may use any handles, and additions by other threads that begin
 before the tick or end after it.
 */
module TimerTicks {
  import opened WrapTime
  import opened PendingTimers
  import opened SlotLists
  import opened TimerCalls

  // ---------------------------------------------------------------------------------------------
  // Time

  /** Sorted, and all times within one window. */
  ghost predicate InOrder(p: seq<Timer>, base: int) {
    AllInWindow(p, base) && Sorted(p, base)
  }

  /** The pending timers are in order, and those of unfinished additions are within the window too. */
  ghost predicate InTime(x: Timers, base: int) {
    InOrder(x.pending, base) && forall j <- x.taken :: x.taken[j].Filled? ==> InWindow(base, x.taken[j].when)
  }

  /** The deadline stays within the window of the base. */
  predicate Timely(call: Call, cycle: nat, base: nat)
    requires 0 < cycle < TWO32 && (Delays(call) ==> call.delay < TWO32)
  {
    Delays(call) ==> InWindow(base, Deadline(call.delay, call.clock, cycle))
  }

  ghost predicate Allowed(calls: seq<Call>, handles: set<Handle>, cycle: nat, base: nat)
    requires 0 < cycle < TWO32
  {
    forall c <- calls :: Fits(c, handles) && Timely(c, cycle, base)
  }

  lemma InsertInOrder(p: seq<Timer>, e: Timer, base: int)
    requires InOrder(p, base) && InWindow(base, e.when)
    ensures InOrder(Insert(p, e), base)
  {
    var k := InsertKeepsSorted(p, e, base);
  }

  lemma AddingInTime(x: Timers, h: Handle, when: nat, base: int)
    requires InTime(x, base) && InWindow(base, when)
    ensures InTime(Adding(x, h, when), base)
  {
    if x.free != [] {
      InsertInOrder(x.pending, Pending(x.free[0], when, h, x.nextUid), base);
    }
  }

  lemma RemoveInTime(s: State, h: Handle, call: Call, base: int)
    requires h in s.index && InTime(s.timers, base)
    ensures InTime(RemoveBy(s, h, call).timers, base)
  {
    var k := Target(s, h);
    if k < |s.timers.pending| {
      RemoveKeepsSorted(s.timers.pending, k, base);
    }
  }

  lemma ApplyInTime(s: State, call: Call, cycle: nat, base: nat)
    requires InTime(s.timers, base) && 0 < cycle < TWO32 && Fits(call, s.index.Keys) && Timely(call, cycle, base)
    ensures InTime(Apply(s, call, cycle).timers, base)
  {
    match call {
      case Add(h, delay, clock) => AddingInTime(s.timers, h, Deadline(delay, clock, cycle), base);
      case Remove(h) => RemoveInTime(s, h, call, base);
      case Restart(h, delay, clock) =>
        RemoveInTime(s, h, call, base);
        AddingInTime(RemoveBy(s, h, call).timers, h, Deadline(delay, clock, cycle), base);
      case Link(h, ix) =>
        if IsFilled(s.timers, ix, h) {
          InsertInOrder(s.timers.pending, Linked(s.timers, ix, h), base);
        }
      case _ =>
    }
  }

  lemma {:induction false} ApplyAllInTime(s: State, calls: seq<Call>, cycle: nat, base: nat)
    requires InTime(s.timers, base) && 0 < cycle < TWO32 && Allowed(calls, s.index.Keys, cycle, base)
    ensures InTime(ApplyAll(s, calls, cycle).timers, base)
    decreases |calls|
  {
    if calls != [] {
      assert calls[0] in calls && forall c <- calls[1..] :: c in calls;
      ApplyInTime(s, calls[0], cycle, base);
      ApplyAllInTime(Apply(s, calls[0], cycle), calls[1..], cycle, base);
    }
  }

  // ---------------------------------------------------------------------------------------------
  // A tick

  /** The locked part of a round: the first timer leaves, and its slot is free. */
  function Pop(s: State): (r: State)
    requires s.timers.pending != []
    ensures r.index == s.index
  {
    s.(timers := Popping(s.timers))
  }

  /** What happens while the first callback runs. */
  function Calls(script: seq<seq<Call>>): seq<Call> {
    if script == [] then [] else script[0]
  }

  function Rest(script: seq<seq<Call>>): seq<seq<Call>> {
    if script == [] then [] else script[1..]
  }

  /** The first timer is due. */
  predicate IsDue(p: seq<Timer>, now: nat) {
    p != [] && Expired(now, p[0].when)
  }

  ghost predicate Ready(s: State, script: seq<seq<Call>>, cycle: nat, now: nat, base: nat) {
    && Sound(s.timers) && InTime(s.timers, base) && InWindow(base, now) && 0 < cycle < TWO32
    && forall calls <- script :: Allowed(calls, s.index.Keys, cycle, base)
  }

  /** The state after the first round. */
  function Round(s: State, script: seq<seq<Call>>, cycle: nat): (r: State)
    requires s.timers.pending != [] && (forall c <- Calls(script) :: Fits(c, s.index.Keys)) && 0 < cycle < TWO32
    ensures r.index.Keys == s.index.Keys
  {
    ApplyAll(Pop(s), Calls(script), cycle)
  }

  lemma PopReady(s: State, base: int)
    requires Sound(s.timers) && InTime(s.timers, base) && s.timers.pending != []
    ensures Sound(Pop(s).timers) && InTime(Pop(s).timers, base) && Pop(s).timers.pending == s.timers.pending[1..]
  {
    PoppingSound(s.timers);
    RemoveKeepsSorted(s.timers.pending, 0, base);
  }

  lemma NextScript(script: seq<seq<Call>>, handles: set<Handle>, cycle: nat, base: nat)
    requires 0 < cycle < TWO32 && forall calls <- script :: Allowed(calls, handles, cycle, base)
    ensures Allowed(Calls(script), handles, cycle, base)
    ensures forall calls <- Rest(script) :: Allowed(calls, handles, cycle, base)
  {
    if script != [] {
      assert script[0] in script && forall x <- script[1..] :: x in script;
    }
  }

  /**
   After every round the tick can go on, and it ends, whatever is called and added in between: either there is less of
   the script left, or fewer timers are due.
   */
  lemma RoundIsReady(s: State, script: seq<seq<Call>>, cycle: nat, now: nat, base: nat)
    requires Ready(s, script, cycle, now, base) && IsDue(s.timers.pending, now)
    ensures forall c <- Calls(script) :: Fits(c, s.index.Keys)
    ensures var r := Round(s, script, cycle);
      && Ready(r, Rest(script), cycle, now, base) && Follows(Popping(s.timers), r.timers, Calls(script))
      && (script == [] ==> |Due(r.timers.pending, now)| < |Due(s.timers.pending, now)|)
  {
    NextScript(script, s.index.Keys, cycle, base);
    PopReady(s, base);
    ApplyAllSound(Pop(s), Calls(script), cycle);
    ApplyAllInTime(Pop(s), Calls(script), cycle, base);
  }

  datatype Result = Result(state: State, fired: seq<Timer>)

  /** pf_scheduler_tick at the fixed time `now`; script[k] is what happens while the k-th callback runs. */
  ghost function Tick(s: State, script: seq<seq<Call>>, cycle: nat, now: nat, base: nat): Result
    requires Ready(s, script, cycle, now, base)
    decreases |script|, |Due(s.timers.pending, now)|
  {
    if !IsDue(s.timers.pending, now) then Result(s, [])
    else
      RoundIsReady(s, script, cycle, now, base);
      var r := Tick(Round(s, script, cycle), Rest(script), cycle, now, base);
      Result(r.state, [s.timers.pending[0]] + r.fired)
  }

  /** What a tick that began with x0 has done when it ends with x: of the timers that were pending, what fired and what is left. */
  ghost predicate TickDone(x0: Timers, x: Timers, fired: seq<Timer>, now: int) {
    && Gone(x0.removed) <= Gone(x.removed) && x0.nextUid <= x.nextUid
    && var gone := Gone(x.removed) - Gone(x0.removed);
    && (forall u <- gone :: u >= x0.nextUid || HasUid(x0.pending, u))
    && Before(fired, x0.nextUid) == Except(Due(x0.pending, now), gone)
    && Before(x.pending, x0.nextUid) == Except(x0.pending, gone + Uids(fired))
  }

  lemma NothingDone(x: Timers, now: int)
    requires Sound(x) && Due(x.pending, now) == []
    ensures TickDone(x, x, [], now)
  {
    EvolvedStays(x.pending, Gone(x.removed), x.nextUid);
    assert Uids<Handle>([]) == {};
    assert Gone(x.removed) - Gone(x.removed) + Uids<Handle>([]) == Gone(x.removed) - Gone(x.removed);
  }

  lemma RoundDone(x0: Timers, x1: Timers, x2: Timers, f1: seq<Timer>, now: int, calls: seq<Call>)
    requires Sound(x0) && x0.pending != [] && Expired(now, x0.pending[0].when)
    requires Popping(x0).pending == x0.pending[1..] && Follows(Popping(x0), x1, calls)
    requires TickDone(x1, x2, f1, now)
    ensures TickDone(x0, x2, [x0.pending[0]] + f1, now)
  {
    var p, g, g1, g2 := x0.pending, Gone(x0.removed), Gone(x1.removed), Gone(x2.removed);
    NotAgain(p, g, x0.nextUid, x1.pending, g1, x1.nextUid, g2);
    FiredJoin(p, g, x0.nextUid, x1.pending, g1, x1.nextUid, g2, f1, now);
    LeftJoin(p, g, x0.nextUid, x1.pending, g1, x1.nextUid, x2.pending, g2, f1);
  }

  /**
   Of the timers that were pending, those that were due fire once each, in list order, except those that were removed
   before; all others are still there, in the same order. Nothing fires that is not due, and nothing that is
   due is left, even of what was added during the tick.
   */
  lemma {:induction false} TickFires(s: State, script: seq<seq<Call>>, cycle: nat, now: nat, base: nat)
    requires Ready(s, script, cycle, now, base)
    ensures var r := Tick(s, script, cycle, now, base);
      && TickDone(s.timers, r.state.timers, r.fired, now)
      && (forall e <- r.fired :: Expired(now, e.when))
      && Due(r.state.timers.pending, now) == []
      && Ready(r.state, [], cycle, now, base)
    decreases |script|, |Due(s.timers.pending, now)|
  {
    DueIsFirst(s.timers.pending, now, base);
    if !IsDue(s.timers.pending, now) {
      NothingDone(s.timers, now);
    } else {
      RoundIsReady(s, script, cycle, now, base);
      PopReady(s, base);
      var s1 := Round(s, script, cycle);
      TickFires(s1, Rest(script), cycle, now, base);
      var r1 := Tick(s1, Rest(script), cycle, now, base);
      RoundDone(s.timers, s1.timers, r1.state.timers, r1.fired, now, Calls(script));
    }
  }

  /** Every timer is still accounted for: also one that is added during the tick fires once, or is removed, or stays. */
  lemma {:induction false} TickAccounts(s: State, script: seq<seq<Call>>, cycle: nat, now: nat, base: nat, fired: set<nat>)
    requires Ready(s, script, cycle, now, base) && Accounted(s.timers, fired)
    ensures var r := Tick(s, script, cycle, now, base);
      && Accounted(r.state.timers, fired + Uids(r.fired)) && fired !! Uids(r.fired) && AllOnce(r.fired)
    decreases |script|, |Due(s.timers.pending, now)|
  {
    if IsDue(s.timers.pending, now) {
      RoundIsReady(s, script, cycle, now, base);
      var e := s.timers.pending[0];
      RoundAccounted(s, script, cycle, base, fired);
      TickAccounts(Round(s, script, cycle), Rest(script), cycle, now, base, fired + {e.uid});
      OnceMore(e, Tick(Round(s, script, cycle), Rest(script), cycle, now, base).fired, fired);
    } else {
      assert fired + Uids<Handle>([]) == fired;
    }
  }

  predicate AllOnce(f: seq<Timer>) {
    forall i, j :: 0 <= i < j < |f| ==> f[i].uid != f[j].uid
  }

  lemma RoundAccounted(s: State, script: seq<seq<Call>>, cycle: nat, base: nat, fired: set<nat>)
    requires Sound(s.timers) && InTime(s.timers, base) && s.timers.pending != [] && 0 < cycle < TWO32
    requires (forall c <- Calls(script) :: Fits(c, s.index.Keys)) && Accounted(s.timers, fired)
    ensures var u := s.timers.pending[0].uid;
      u !in fired && Accounted(Round(s, script, cycle).timers, fired + {u})
  {
    PopReady(s, base);
    PoppingAccounted(s.timers, fired);
    ApplyAllAccounted(Pop(s), Calls(script), cycle, fired + {s.timers.pending[0].uid});
  }

  lemma OnceMore(e: Timer, f: seq<Timer>, fired: set<nat>)
    requires e.uid !in fired && fired + {e.uid} !! Uids(f) && AllOnce(f)
    ensures fired + {e.uid} + Uids(f) == fired + Uids([e] + f) && fired !! Uids([e] + f) && AllOnce([e] + f)
  {
    UidsOfCons(e, f);
    var r := [e] + f;
    forall i, j | 0 <= i < j < |r|
      ensures r[i].uid != r[j].uid
    {
      assert r[j] == f[j - 1] && f[j - 1].uid in Uids(f);
    }
  }

  /** What happens to a scheduler over its life: calls, and ticks with what is called meanwhile. */
  datatype Happening =
    | Called(calls: seq<Call>)
    | Ticked(script: seq<seq<Call>>, now: nat, base: nat)

  predicate FitsNow(s: State, x: Happening, cycle: nat) {
    0 < cycle < TWO32 && (x.Called? ==> forall c <- x.calls :: Fits(c, s.index.Keys))
  }

  ghost function AfterOne(s: State, x: Happening, cycle: nat): Result
    requires FitsNow(s, x, cycle) && (x.Ticked? ==> Ready(s, x.script, cycle, x.now, x.base))
  {
    match x
    case Called(calls) => Result(ApplyAll(s, calls, cycle), [])
    case Ticked(script, now, base) => Tick(s, script, cycle, now, base)
  }

  /** Every call is for a handle in play, and every tick finds the deadlines within one window. */
  ghost predicate Life(s: State, xs: seq<Happening>, cycle: nat)
    decreases |xs|
  {
    xs == [] ||
    (&& FitsNow(s, xs[0], cycle)
     && (xs[0].Ticked? ==> Ready(s, xs[0].script, cycle, xs[0].now, xs[0].base))
     && Life(AfterOne(s, xs[0], cycle).state, xs[1..], cycle))
  }

  ghost function Lived(s: State, xs: seq<Happening>, cycle: nat): Result
    requires Life(s, xs, cycle)
    decreases |xs|
  {
    if xs == [] then Result(s, [])
    else
      var r := AfterOne(s, xs[0], cycle);
      var rest := Lived(r.state, xs[1..], cycle);
      Result(rest.state, r.fired + rest.fired)
  }

  lemma StepAccounts(s: State, x: Happening, cycle: nat, fired: set<nat>)
    requires Sound(s.timers) && Accounted(s.timers, fired)
    requires FitsNow(s, x, cycle) && (x.Ticked? ==> Ready(s, x.script, cycle, x.now, x.base))
    ensures var r := AfterOne(s, x, cycle);
      && Sound(r.state.timers) && Accounted(r.state.timers, fired + Uids(r.fired)) && fired !! Uids(r.fired)
      && AllOnce(r.fired)
  {
    match x {
      case Called(calls) =>
        ApplyAllSound(s, calls, cycle);
        ApplyAllAccounted(s, calls, cycle, fired);
        assert fired + Uids<Handle>([]) == fired;
      case Ticked(script, now, base) =>
        TickFires(s, script, cycle, now, base);
        TickAccounts(s, script, cycle, now, base, fired);
    }
  }

  lemma {:induction false} LifeAccounts(s: State, xs: seq<Happening>, cycle: nat, fired: set<nat>)
    requires Sound(s.timers) && Accounted(s.timers, fired) && Life(s, xs, cycle)
    ensures var r := Lived(s, xs, cycle);
      Accounted(r.state.timers, fired + Uids(r.fired)) && fired !! Uids(r.fired) && AllOnce(r.fired)
    decreases |xs|
  {
    if xs == [] {
      assert fired + Uids<Handle>([]) == fired;
    } else {
      var r := AfterOne(s, xs[0], cycle);
      StepAccounts(s, xs[0], cycle, fired);
      LifeAccounts(r.state, xs[1..], cycle, fired + Uids(r.fired));
      FiredApart(fired, r.fired, Lived(r.state, xs[1..], cycle).fired);
    }
  }

  lemma FiredApart(fired: set<nat>, f: seq<Timer>, g: seq<Timer>)
    requires fired !! Uids(f) && fired + Uids(f) !! Uids(g) && AllOnce(f) && AllOnce(g)
    ensures fired + Uids(f) + Uids(g) == fired + Uids(f + g) && fired !! Uids(f + g) && AllOnce(f + g)
  {
    UidsJoin(f, g);
    var r := f + g;
    forall i, j | 0 <= i < j < |r|
      ensures r[i].uid != r[j].uid
    {
      if i < |f| <= j {
        assert f[i].uid in Uids(f) && g[j - |f|].uid in Uids(g);
      }
    }
  }

  /** After pf_scheduler_init. */
  function Started(n: nat, index: map<Handle, nat>): State {
    State(Timers([], Range(0, n), map[], 0, []), index)
  }

  /**
   Over every run of calls and ticks: each timer that was ever pending is still pending, or was removed, or has fired,
   and only one of these; none has fired twice.
   */
  lemma EveryTimerAccounted(n: nat, index: map<Handle, nat>, xs: seq<Happening>, cycle: nat)
    requires n < 0x1_0000 && Life(Started(n, index), xs, cycle)
    ensures var r := Lived(Started(n, index), xs, cycle);
      Accounted(r.state.timers, Uids(r.fired)) && AllOnce(r.fired)
  {
    var s := Started(n, index);
    LifeAccounts(s, xs, cycle, {});
    var r := Lived(s, xs, cycle);
    assert {} + Uids(r.fired) == Uids(r.fired);
  }

  /** What was called while the first k callbacks ran. */
  function Made(script: seq<seq<Call>>, k: nat): seq<Call> {
    if script == [] || k == 0 then [] else script[0] + Made(script[1..], k - 1)
  }

  lemma MadeInOrder(r0: seq<Removal>, r1: seq<Removal>, r2: seq<Removal>, script: seq<seq<Call>>, k: nat)
    requires RemovedBy(r0, r1, Calls(script)) && RemovedBy(r1, r2, Made(Rest(script), k))
    ensures RemovedBy(r0, r2, Made(script, k + 1))
  {
    assert Made(script, k + 1) == Calls(script) + Made(Rest(script), k);
    RemovedJoin(r0, r1, r2, Calls(script), Made(Rest(script), k), Made(script, k + 1));
  }

  /** Every timer that a tick loses without firing it was removed by a Remove or Restart that ran, through a handle of its name. */
  lemma {:induction false} TickRemoves(s: State, script: seq<seq<Call>>, cycle: nat, now: nat, base: nat)
    requires Ready(s, script, cycle, now, base)
    ensures var r := Tick(s, script, cycle, now, base);
      RemovedBy(s.timers.removed, r.state.timers.removed, Made(script, |r.fired|))
    decreases |script|, |Due(s.timers.pending, now)|
  {
    if IsDue(s.timers.pending, now) {
      RoundIsReady(s, script, cycle, now, base);
      var s1 := Round(s, script, cycle);
      TickRemoves(s1, Rest(script), cycle, now, base);
      var r1 := Tick(s1, Rest(script), cycle, now, base);
      assert |Tick(s, script, cycle, now, base).fired| == |r1.fired| + 1;
      MadeInOrder(s.timers.removed, s1.timers.removed, r1.state.timers.removed, script, |r1.fired|);
    }
  }

  // What was added during the tick

  /** The deadline is not reached at `now`. */
  predicate Prompt(call: Call, cycle: nat, now: nat)
    requires 0 < cycle < TWO32 && (Delays(call) ==> call.delay < TWO32)
  {
    Delays(call) ==> !Expired(now, Deadline(call.delay, call.clock, cycle))
  }

  /** That holds of every addition whose clock was not read before `now`: the sanitized delay is at least 1. */
  lemma LaterIsPrompt(call: Call, cycle: nat, now: nat, base: nat)
    requires 0 < cycle && cycle + cycle / 2 < TWO32 && InWindow(base, now)
    requires Delays(call) ==> call.delay < TWO32
    requires Delays(call) ==> Sub32(now, base) <= Sub32(call.clock, base)
    requires Delays(call) ==> Sub32(call.clock, base) + SanitizeDelay(call.delay, cycle) < TWO31
    ensures Timely(call, cycle, base) && Prompt(call, cycle, now)
  {
    if Delays(call) {
      DelayAtLeastOne(call.delay, cycle);
      DistanceAdds(base, call.clock, SanitizeDelay(call.delay, cycle));
      SDiffInWindow(base, now, Deadline(call.delay, call.clock, cycle));
    }
  }

  /** Nothing since the n-th addition is due, nor will be when it is linked. */
  ghost predicate Undue(x: Timers, n: nat, now: nat) {
    && NoneDueSince(x.pending, n, now)
    && forall j <- x.taken :: x.taken[j].Filled? ==> !Expired(now, x.taken[j].when)
  }

  lemma RemoveUndue(s: State, h: Handle, call: Call, n: nat, now: nat)
    requires h in s.index && Undue(s.timers, n, now)
    ensures Undue(RemoveBy(s, h, call).timers, n, now)
  {
    var k := Target(s, h);
    if k < |s.timers.pending| {
      assert forall x <- RemoveAt(s.timers.pending, k) :: x in s.timers.pending;
    }
  }

  lemma AddingUndue(x: Timers, h: Handle, when: nat, n: nat, now: nat)
    requires Undue(x, n, now) && !Expired(now, when)
    ensures Undue(Adding(x, h, when), n, now)
  {
    if x.free != [] {
      InsertMembers(x.pending, Pending(x.free[0], when, h, x.nextUid));
    }
  }

  lemma ApplyUndue(s: State, call: Call, cycle: nat, n: nat, now: nat)
    requires Undue(s.timers, n, now) && 0 < cycle < TWO32 && Fits(call, s.index.Keys) && Prompt(call, cycle, now)
    ensures Undue(Apply(s, call, cycle).timers, n, now)
  {
    match call {
      case Add(h, delay, clock) => AddingUndue(s.timers, h, Deadline(delay, clock, cycle), n, now);
      case Remove(h) => RemoveUndue(s, h, call, n, now);
      case Restart(h, delay, clock) =>
        RemoveUndue(s, h, call, n, now);
        AddingUndue(RemoveBy(s, h, call).timers, h, Deadline(delay, clock, cycle), n, now);
      case Link(h, ix) =>
        if IsFilled(s.timers, ix, h) {
          InsertMembers(s.timers.pending, Linked(s.timers, ix, h));
        }
      case _ =>
    }
  }

  lemma {:induction false} ApplyAllUndue(s: State, calls: seq<Call>, cycle: nat, n: nat, now: nat)
    requires Undue(s.timers, n, now) && 0 < cycle < TWO32
    requires forall c <- calls :: Fits(c, s.index.Keys) && Prompt(c, cycle, now)
    ensures Undue(ApplyAll(s, calls, cycle).timers, n, now)
    decreases |calls|
  {
    if calls != [] {
      assert calls[0] in calls && forall c <- calls[1..] :: c in calls;
      ApplyUndue(s, calls[0], cycle, n, now);
      ApplyAllUndue(Apply(s, calls[0], cycle), calls[1..], cycle, n, now);
    }
  }

  /** No addition ends during the tick with a deadline that is reached already. */
  ghost predicate AllPrompt(s: State, script: seq<seq<Call>>, cycle: nat, now: nat, base: nat)
    requires Ready(s, script, cycle, now, base)
  {
    && (forall j <- s.timers.taken :: s.timers.taken[j].Filled? ==> !Expired(now, s.timers.taken[j].when))
    && forall calls <- script :: forall c <- calls :: Prompt(c, cycle, now)
  }

  lemma PromptRound(s: State, script: seq<seq<Call>>, cycle: nat, now: nat, base: nat, n: nat)
    requires Ready(s, script, cycle, now, base) && IsDue(s.timers.pending, now) && AllPrompt(s, script, cycle, now, base)
    requires NoneDueSince(s.timers.pending, n, now)
    ensures forall c <- Calls(script) :: Fits(c, s.index.Keys)
    ensures var r := Round(s, script, cycle);
      && Ready(r, Rest(script), cycle, now, base) && AllPrompt(r, Rest(script), cycle, now, base)
      && NoneDueSince(r.timers.pending, n, now) && s.timers.pending[0].uid < n
  {
    RoundIsReady(s, script, cycle, now, base);
    PopReady(s, base);
    assert s.timers.pending[0] in s.timers.pending;
    assert forall x <- s.timers.pending[1..] :: x in s.timers.pending;
    if script != [] {
      assert script[0] in script && forall x <- script[1..] :: x in script;
    }
    ApplyAllUndue(Pop(s), Calls(script), cycle, n, now);
  }

  lemma {:induction false} OnlyOldFire(s: State, script: seq<seq<Call>>, cycle: nat, now: nat, base: nat, n: nat)
    requires Ready(s, script, cycle, now, base) && AllPrompt(s, script, cycle, now, base)
    requires NoneDueSince(s.timers.pending, n, now)
    ensures forall e <- Tick(s, script, cycle, now, base).fired :: e.uid < n
    decreases |script|, |Due(s.timers.pending, now)|
  {
    if IsDue(s.timers.pending, now) {
      RoundIsReady(s, script, cycle, now, base);
      PromptRound(s, script, cycle, now, base, n);
      OnlyOldFire(Round(s, script, cycle), Rest(script), cycle, now, base, n);
    }
  }

  /** Then nothing but the timers that were pending and due fires: those of them that were not removed before, in list order. */
  lemma PromptTickFires(s: State, script: seq<seq<Call>>, cycle: nat, now: nat, base: nat)
    requires Ready(s, script, cycle, now, base) && AllPrompt(s, script, cycle, now, base)
    ensures var r := Tick(s, script, cycle, now, base);
      r.fired == Except(Due(s.timers.pending, now), Gone(r.state.timers.removed) - Gone(s.timers.removed))
  {
    var r := Tick(s, script, cycle, now, base);
    TickFires(s, script, cycle, now, base);
    forall x | x in s.timers.pending
      ensures x.uid < s.timers.nextUid
    {
      var i :| 0 <= i < |s.timers.pending| && s.timers.pending[i] == x;
    }
    OnlyOldFire(s, script, cycle, now, base, s.timers.nextUid);
    assert forall i :: 0 <= i < |r.fired| ==> r.fired[i] in r.fired;
    BeforeAll(r.fired, s.timers.nextUid);
  }

  /** If moreover nothing is removed or restarted, exactly the timers that were due fire, and every other one stays. */
  lemma TickWithoutRemovals(s: State, script: seq<seq<Call>>, cycle: nat, now: nat, base: nat)
    requires Ready(s, script, cycle, now, base) && AllPrompt(s, script, cycle, now, base)
    requires var r := Tick(s, script, cycle, now, base); forall c <- Made(script, |r.fired|) :: !c.Remove? && !c.Restart?
    ensures var r := Tick(s, script, cycle, now, base);
      && r.fired == Due(s.timers.pending, now)
      && forall e <- s.timers.pending :: !Expired(now, e.when) ==> e in r.state.timers.pending
  {
    var r := Tick(s, script, cycle, now, base);
    var x, x' := s.timers, r.state.timers;
    TickRemoves(s, script, cycle, now, base);
    if x'.removed != x.removed {
      var c := SomeRemoval(x.removed, x'.removed, Made(script, |r.fired|));
    }
    TickFires(s, script, cycle, now, base);
    PromptTickFires(s, script, cycle, now, base);
    var none := Gone(x'.removed) - Gone(x.removed);
    assert none == {};
    ExceptNone(Due(x.pending, now), none);
    assert none + Uids(r.fired) == Uids(r.fired);
    UndueStays(x.pending, x'.pending, x.nextUid, now);
  }

  lemma SomeRemoval(old_: seq<Removal>, new_: seq<Removal>, calls: seq<Call>) returns (c: Call)
    requires RemovedBy(old_, new_, calls) && new_ != old_
    ensures c in calls && (c.Remove? || c.Restart?)
  {
    assert ByName(new_[|old_|]);
    c := new_[|old_|].call;
  }

  lemma UndueStays(p: seq<Timer>, p': seq<Timer>, n: nat, now: nat)
    requires Distinct(p) && Before(p', n) == Except(p, Uids(Due(p, now)))
    ensures forall e <- p :: !Expired(now, e.when) ==> e in p'
  {
    var d := Due(p, now);
    ExceptMembers(p, Uids(d));
    BeforeMembers(p', n);
    DueMembers(p, now);
    forall e | e in p && !Expired(now, e.when)
      ensures e in p'
    {
      if e.uid in Uids(d) {
        var i := UidAt(d, e.uid);
        SameUid(p, e, d[i]);
      }
    }
  }

  lemma SameUid(p: seq<Timer>, e: Timer, f: Timer)
    requires Distinct(p) && e in p && f in p && e.uid == f.uid
    ensures e == f
  {
    var i :| 0 <= i < |p| && p[i] == e;
    var j :| 0 <= j < |p| && p[j] == f;
  }

  // ---------------------------------------------------------------------------------------------
  // Which ticks the code can perform

  predicate CanDoAll(s: State, calls: seq<Call>, cycle: nat)
    requires (forall c <- calls :: Fits(c, s.index.Keys)) && 0 < cycle < TWO32
    decreases |calls|
  {
    if calls == [] then true
    else
      assert calls[0] in calls && Fits(calls[0], s.index.Keys) && forall c <- calls[1..] :: c in calls;
      CanDo(s, calls[0]) && CanDoAll(Apply(s, calls[0], cycle), calls[1..], cycle)
  }

  /** In every round, sections follow one another, and no removal hits the slot of an unfinished addition. */
  ghost predicate CanTick(s: State, script: seq<seq<Call>>, cycle: nat, now: nat, base: nat)
    requires Ready(s, script, cycle, now, base)
    decreases |script|, |Due(s.timers.pending, now)|
  {
    if !IsDue(s.timers.pending, now) then true
    else
      RoundIsReady(s, script, cycle, now, base);
      && CanDoAll(Pop(s), Calls(script), cycle)
      && CanTick(Round(s, script, cycle), Rest(script), cycle, now, base)
  }

  /** No handle in play hits the slot of an unfinished addition. */
  ghost predicate Clear(s: State) {
    forall h <- s.index :: !HitsTaken(s, h)
  }

  predicate IsSection(c: Call) {
    c.Take? || c.Fill? || c.Link? || c.Keep?
  }

  lemma RemoveKeepsClear(s: State, h: Handle, call: Call)
    requires Sound(s.timers) && Clear(s) && h in s.index
    ensures Clear(RemoveBy(s, h, call)) && RemoveBy(s, h, call).timers.taken == s.timers.taken
  {
    var r := RemoveBy(s, h, call);
    forall g | g in r.index
      ensures !HitsTaken(r, g)
    {
      assert !HitsTaken(s, g);
    }
  }

  lemma AddKeepsClear(s: State, h: Handle, when: nat)
    requires Sound(s.timers) && Clear(s) && h in s.index
    ensures Clear(AddAt(s, h, when))
  {
    var r, free := AddAt(s, h, when), s.timers.free;
    assert free != [] ==> free[0] !in s.timers.taken;
    assert r.index[h] - 1 !in s.timers.taken && r.timers.taken == s.timers.taken;
    forall g | g in r.index
      ensures !HitsTaken(r, g)
    {
      assert g in s.index && !HitsTaken(s, g);
    }
  }

  lemma WholeCallKeepsClear(s: State, call: Call, cycle: nat)
    requires Sound(s.timers) && Clear(s) && Fits(call, s.index.Keys) && 0 < cycle < TWO32 && !IsSection(call)
    ensures CanDo(s, call) && Clear(Apply(s, call, cycle))
  {
    match call {
      case Add(h, delay, clock) => AddKeepsClear(s, h, Deadline(delay, clock, cycle));
      case Remove(h) => RemoveKeepsClear(s, h, call);
      case Restart(h, delay, clock) =>
        RemoveKeepsClear(s, h, call);
        RemoveSound(s, h, call);
        AddKeepsClear(RemoveBy(s, h, call), h, Deadline(delay, clock, cycle));
      case Reset(h) =>
        var r := Apply(s, call, cycle);
        assert forall g <- r.index :: HitsTaken(r, g) ==> HitsTaken(s, g);
    }
  }

  lemma {:induction false} WholeCallsKeepClear(s: State, calls: seq<Call>, cycle: nat)
    requires Sound(s.timers) && Clear(s) && 0 < cycle < TWO32 && forall c <- calls :: Fits(c, s.index.Keys) && !IsSection(c)
    ensures CanDoAll(s, calls, cycle) && Clear(ApplyAll(s, calls, cycle))
    decreases |calls|
  {
    if calls != [] {
      assert calls[0] in calls && forall c <- calls[1..] :: c in calls;
      WholeCallKeepsClear(s, calls[0], cycle);
      ApplySound(s, calls[0], cycle);
      WholeCallsKeepClear(Apply(s, calls[0], cycle), calls[1..], cycle);
    }
  }

  /** If that is so before the tick, and every addition during the tick is made as a whole, the code can perform it. */
  lemma {:induction false} ClearCanTick(s: State, script: seq<seq<Call>>, cycle: nat, now: nat, base: nat)
    requires Ready(s, script, cycle, now, base) && Clear(s)
    requires forall calls <- script :: forall c <- calls :: !IsSection(c)
    ensures CanTick(s, script, cycle, now, base) && Clear(Tick(s, script, cycle, now, base).state)
    decreases |script|, |Due(s.timers.pending, now)|
  {
    if IsDue(s.timers.pending, now) {
      RoundIsReady(s, script, cycle, now, base);
      PopReady(s, base);
      if script != [] {
        assert script[0] in script && forall x <- script[1..] :: x in script;
      }
      assert Clear(Pop(s)) by {
        assert forall h <- s.index :: HitsTaken(Pop(s), h) ==> HitsTaken(s, h);
      }
      WholeCallsKeepClear(Pop(s), Calls(script), cycle);
      ClearCanTick(Round(s, script, cycle), Rest(script), cycle, now, base);
    }
  }

  // ---------------------------------------------------------------------------------------------
  // A handle that is not reset

  /**
   A timer of h fires, and h is not reset; another thread begins an addition on g, and gets the same slot. From then on a
   removal through h hits that addition, if and only if the two handles have the same name.
   */
  lemma StaleHandleHits(n: nat, h: Handle, g: Handle, index: map<Handle, nat>, delay: nat, clock: nat,
                        delay': nat, clock': nat, cycle: nat)
    requires n > 0 && h in index && g in index && h != g && 0 < cycle < TWO32
    requires delay < TWO32 && clock < TWO32 && delay' < TWO32 && clock' < TWO32
    ensures var s1 := Apply(Started(n, index), Add(h, delay, clock), cycle);
      && |s1.timers.pending| == 1
      && var s2 := Apply(Pop(s1), Take(g), cycle); var s3 := Apply(s2, Fill(g, 0, delay', clock'), cycle);
      && IsEmpty(s2.timers, 0) && IsFilled(s3.timers, 0, g) && s3.timers.pending == [] && s3.index[h] == 1
      && (HitsTaken(s3, h) <==> h.name == g.name)
  {
    var s0 := Started(n, index);
    assert s0.timers.free[0] == 0;
  }
}
