/**
 Clients that keep to one timer each, in src/common/pf_scheduler.c: what their calls and callbacks do. The names of handles
 are shared and slots are reused, so this needs the discipline below; without it TimerTicks says what holds.
 */
module TimerOwners {
  import opened WrapTime
  import opened PendingTimers
  import opened SlotLists
  import opened TimerCalls
  import opened TimerTicks

  function Owners(p: seq<Timer>): set<Handle> {
    set i | 0 <= i < |p| :: p[i].owner
  }

  /** Every timer is its owner's only one, and every running handle has one; the handles in `out` are left out of account. */
  ghost predicate OwnedList(p: seq<Timer>, index: map<Handle, nat>, out: set<Handle>) {
    && (forall e <- p :: e.owner in index && e.owner !in out && index[e.owner] == e.slot + 1)
    && (forall h <- index :: h !in out && index[h] != NOT_RUNNING ==> h in Owners(p))
  }

  ghost predicate Owned(s: State) {
    OwnedList(s.timers.pending, s.index, {})
  }

  lemma IsOwner(p: seq<Timer>, e: Timer)
    requires e in p
    ensures e.owner in Owners(p)
  {
  }

  /** No two pending timers have the same owner, and a handle runs exactly while its timer is pending. */
  lemma OneTimerPerHandle(s: State, h: Handle)
    requires Sound(s.timers) && Owned(s) && h in s.index
    ensures forall i, j :: 0 <= i < j < |s.timers.pending| ==> s.timers.pending[i].owner != s.timers.pending[j].owner
    ensures s.index[h] != NOT_RUNNING <==> h in Owners(s.timers.pending)
  {
    var p := s.timers.pending;
    assert forall i :: 0 <= i < |p| ==> p[i] in p;
    forall i, j | 0 <= i < j < |p|
      ensures p[i].owner != p[j].owner
    {
      assert p[i].slot != p[j].slot;
    }
    if h in Owners(p) {
      var i :| 0 <= i < |p| && p[i].owner == h;
      assert p[i].slot + 1 < NOT_RUNNING;
    }
  }

  /** Such clients never hit the slot of an unfinished addition. */
  lemma OwnedIsClear(s: State)
    requires Sound(s.timers) && Owned(s)
    ensures Clear(s)
  {
    var p := s.timers.pending;
    forall h | h in s.index
      ensures !HitsTaken(s, h)
    {
      OneTimerPerHandle(s, h);
      if s.index[h] != NOT_RUNNING {
        var i :| 0 <= i < |p| && p[i].owner == h;
        assert p[i] in p && p[i].slot !in s.timers.taken;
      }
    }
  }

  lemma TargetOf(s: State, h: Handle, i: nat)
    requires Distinct(s.timers.pending) && i < |s.timers.pending| && h in s.index
    requires s.timers.pending[i].slot + 1 == s.index[h] && s.timers.pending[i].owner == h
    ensures Target(s, h) == i
  {
    FindOnly(s.timers.pending, i);
  }

  lemma NoTarget(s: State, h: Handle)
    requires h in s.index && s.index[h] == NOT_RUNNING
    requires forall i :: 0 <= i < |s.timers.pending| ==> s.timers.pending[i].slot + 1 < NOT_RUNNING
    ensures Target(s, h) == |s.timers.pending|
  {
    assert forall i :: 0 <= i < |s.timers.pending| ==> s.timers.pending[i].slot + 1 != s.index[h];
  }

  /** A removal through a running handle takes that handle's own timer. */
  lemma TargetIsOwn(s: State, h: Handle)
    requires Sound(s.timers) && Owned(s) && h in s.index
    ensures var k := Target(s, h);
      && (k < |s.timers.pending| <==> s.index[h] != NOT_RUNNING)
      && (k < |s.timers.pending| ==> s.timers.pending[k].owner == h)
  {
    var p := s.timers.pending;
    if s.index[h] != NOT_RUNNING {
      var i :| 0 <= i < |p| && p[i].owner == h;
      assert p[i] in p;
      TargetOf(s, h, i);
    } else {
      NoTarget(s, h);
    }
  }

  lemma OwnersOfRemove(p: seq<Timer>, k: nat)
    requires k < |p| && forall i, j :: 0 <= i < j < |p| ==> p[i].owner != p[j].owner
    ensures Owners(RemoveAt(p, k)) == Owners(p) - {p[k].owner}
    ensures forall e :: e in RemoveAt(p, k) <==> e in p && e.owner != p[k].owner
  {
    var r := RemoveAt(p, k);
    assert forall i :: 0 <= i < |r| ==> r[i] == p[if i < k then i else i + 1];
    forall e | e in p && e.owner != p[k].owner
      ensures e in r && e.owner in Owners(r)
    {
      var i :| 0 <= i < |p| && p[i] == e;
      assert r[if i < k then i else i - 1] == e;
    }
    forall h | h in Owners(p) && h != p[k].owner
      ensures h in Owners(r)
    {
      var i :| 0 <= i < |p| && p[i].owner == h;
      assert p[i] in p;
    }
  }

  /** Nothing changed but the timer of h; it is the one with this deadline, if h runs, and gone otherwise. */
  ghost predicate OwnOnly(s: State, r: State, h: Handle, when: nat)
    requires h in r.index
  {
    && Owned(r)
    && (forall e <- s.timers.pending :: e.owner != h ==> e in r.timers.pending)
    && (forall e <- r.timers.pending :: e.owner != h ==> e in s.timers.pending)
    && (forall e <- r.timers.pending :: e.owner == h ==> e.when == when)
    && (r.index[h] != NOT_RUNNING <==> h in Owners(r.timers.pending))
    && (forall i :: |s.timers.removed| <= i < |r.timers.removed| ==> r.timers.removed[i].timer.owner == h)
  }

  /** What a removal through h does: h has no timer any more, and all others are as they were. */
  ghost predicate OwnGone(s: State, r: State, h: Handle)
    requires h in s.index && h in r.index
  {
    && Owned(r) && r.index[h] == NOT_RUNNING && h !in Owners(r.timers.pending)
    && (forall e <- r.timers.pending :: e in s.timers.pending)
    && (forall e <- s.timers.pending :: e.owner != h ==> e in r.timers.pending)
    && (if s.index[h] != NOT_RUNNING
        then |r.timers.removed| == |s.timers.removed| + 1 && r.timers.removed[|s.timers.removed|].timer.owner == h
        else r == s)
    && (r.timers.free != [] <==> s.timers.free != [] || s.index[h] != NOT_RUNNING)
  }

  /** Remove keeps the discipline, and stops exactly the caller's own timer. */
  lemma RemoveOwn(s: State, h: Handle, call: Call)
    requires Sound(s.timers) && Owned(s) && h in s.index
    ensures OwnGone(s, RemoveBy(s, h, call), h)
  {
    TargetIsOwn(s, h);
    OneTimerPerHandle(s, h);
    var p := s.timers.pending;
    var k := Target(s, h);
    if k < |p| {
      OwnersOfRemove(p, k);
      RemovedList(p, s.index, h, k);
    } else {
      forall e | e in p
        ensures e.owner != h
      {
        IsOwner(p, e);
      }
    }
  }

  lemma RemovedList(p: seq<Timer>, index: map<Handle, nat>, h: Handle, k: nat)
    requires OwnedList(p, index, {}) && h in index && k < |p| && p[k].owner == h
    requires Owners(RemoveAt(p, k)) == Owners(p) - {h}
    requires forall e :: e in RemoveAt(p, k) <==> e in p && e.owner != h
    ensures OwnedList(RemoveAt(p, k), index[h := NOT_RUNNING], {})
  {
  }

  lemma GoneIsOwnOnly(s: State, r: State, h: Handle, when: nat)
    requires h in s.index && h in r.index && OwnGone(s, r, h)
    ensures OwnOnly(s, r, h, when)
  {
    forall e | e in r.timers.pending
      ensures e.owner != h
    {
      IsOwner(r.timers.pending, e);
    }
  }

  /** So does an addition on a handle that has no timer. */
  lemma AddOwn(s: State, h: Handle, when: nat, out: set<Handle>)
    requires OwnedList(s.timers.pending, s.index, out) && h in s.index
    requires out <= {h} && h !in Owners(s.timers.pending)
    requires forall i :: 0 <= i < |s.timers.free| ==> s.timers.free[i] + 1 < NOT_RUNNING
    ensures var r := AddAt(s, h, when);
      && OwnOnly(s, r, h, when) && (r.index[h] != NOT_RUNNING <==> s.timers.free != [])
  {
    var p := s.timers.pending;
    forall e | e in p
      ensures e.owner != h
    {
      IsOwner(p, e);
    }
    if s.timers.free != [] {
      var e := Pending(s.timers.free[0], when, h, s.timers.nextUid);
      InsertMembers(p, e);
      OwnersOfInsert(p, e);
    }
  }

  lemma OwnersOfInsert(p: seq<Timer>, e: Timer)
    ensures Owners(Insert(p, e)) == Owners(p) + {e.owner}
  {
    InsertMembers(p, e);
    var q := Insert(p, e);
    forall h | h in Owners(p)
      ensures h in Owners(q)
    {
      var i :| 0 <= i < |p| && p[i].owner == h;
      IsOwner(q, p[i]);
    }
    forall h | h in Owners(q)
      ensures h in Owners(p) + {e.owner}
    {
      var i :| 0 <= i < |q| && q[i].owner == h;
      assert q[i] in q;
      if q[i] != e {
        IsOwner(p, q[i]);
      }
    }
    IsOwner(q, e);
  }

  /** The calls that the discipline allows: whole calls, no addition on a running handle, and no reset of one. */
  predicate Proper(s: State, call: Call)
    requires call.h in s.index
  {
    !IsSection(call) && (call.Add? || call.Reset? ==> s.index[call.h] == NOT_RUNNING)
  }

  lemma AddCase(s: State, h: Handle, when: nat)
    requires Sound(s.timers) && Owned(s) && h in s.index && s.index[h] == NOT_RUNNING
    ensures var r := AddAt(s, h, when);
      OwnOnly(s, r, h, when) && (r.index[h] != NOT_RUNNING <==> s.timers.free != [])
  {
    OneTimerPerHandle(s, h);
    AddOwn(s, h, when, {});
  }

  lemma RemoveCase(s: State, h: Handle, call: Call, when: nat)
    requires Sound(s.timers) && Owned(s) && h in s.index
    ensures var r := RemoveBy(s, h, call);
      && OwnOnly(s, r, h, when) && r.index[h] == NOT_RUNNING
      && (r.timers.free != [] <==> s.timers.free != [] || s.index[h] != NOT_RUNNING)
  {
    RemoveOwn(s, h, call);
    GoneIsOwnOnly(s, RemoveBy(s, h, call), h, when);
  }

  lemma RestartCase(s: State, h: Handle, call: Call, when: nat)
    requires Sound(s.timers) && Owned(s) && h in s.index && call.h == h && call.Restart?
    ensures var r := AddAt(RemoveBy(s, h, call), h, when);
      && OwnOnly(s, r, h, when)
      && (r.index[h] != NOT_RUNNING <==> s.timers.free != [] || s.index[h] != NOT_RUNNING)
  {
    var s1 := RemoveBy(s, h, call);
    RemoveCase(s, h, call, when);
    RemoveSound(s, h, call);
    AddCase(s1, h, when);
    OwnOnlyJoin(s, s1, AddAt(s1, h, when), h, when);
  }

  lemma OwnOnlyJoin(s: State, s1: State, r: State, h: Handle, when: nat)
    requires h in s1.index && h in r.index && OwnOnly(s, s1, h, when) && OwnOnly(s1, r, h, when)
    requires r.timers.removed == s1.timers.removed
    ensures OwnOnly(s, r, h, when)
  {
  }

  /**
   Under the discipline every call affects exactly the caller's own timer: those of other handles stay as they are, a
   removed handle has none, and a restarted one that was running, or that finds a free slot, has the new one.
   */
  lemma OnlyOwnTimer(s: State, call: Call, cycle: nat)
    requires Sound(s.timers) && Owned(s) && Fits(call, s.index.Keys) && 0 < cycle < TWO32 && Proper(s, call)
    ensures var r := Apply(s, call, cycle);
      && OwnOnly(s, r, call.h, if Delays(call) then Deadline(call.delay, call.clock, cycle) else 0)
      && (call.Add? ==> (r.index[call.h] != NOT_RUNNING <==> s.timers.free != []))
      && (call.Restart? ==> (r.index[call.h] != NOT_RUNNING <==> s.timers.free != [] || s.index[call.h] != NOT_RUNNING))
      && (call.Remove? || call.Reset? ==> r.index[call.h] == NOT_RUNNING)
  {
    match call {
      case Add(h, delay, clock) => AddCase(s, h, Deadline(delay, clock, cycle));
      case Remove(h) => RemoveCase(s, h, call, 0);
      case Restart(h, delay, clock) => RestartCase(s, h, call, Deadline(delay, clock, cycle));
      case Reset(h) => ResetCase(s, h);
    }
  }

  lemma ResetCase(s: State, h: Handle)
    requires Sound(s.timers) && Owned(s) && h in s.index && s.index[h] == NOT_RUNNING
    ensures s.index[h := NOT_RUNNING] == s.index && OwnOnly(s, s, h, 0)
  {
    OneTimerPerHandle(s, h);
    forall e | e in s.timers.pending
      ensures e.owner != h
    {
      IsOwner(s.timers.pending, e);
    }
  }

  // ---------------------------------------------------------------------------------------------
  // A tick of such clients

  predicate ProperAll(s: State, calls: seq<Call>, cycle: nat)
    requires (forall c <- calls :: Fits(c, s.index.Keys)) && 0 < cycle < TWO32
    decreases |calls|
  {
    if calls == [] then true
    else
      assert calls[0] in calls && Fits(calls[0], s.index.Keys) && forall c <- calls[1..] :: c in calls;
      Proper(s, calls[0]) && ProperAll(Apply(s, calls[0], cycle), calls[1..], cycle)
  }

  /** What the callback of o may call: first it resets or reuses its own handle, whose timer has fired. */
  predicate Conduct(s: State, o: Handle, calls: seq<Call>, cycle: nat)
    requires (forall c <- calls :: Fits(c, s.index.Keys)) && 0 < cycle < TWO32
  {
    if calls == [] then false
    else
      assert calls[0] in calls && forall c <- calls[1..] :: c in calls;
      calls[0].h == o && (calls[0].Reset? || calls[0].Add?) && ProperAll(Apply(s, calls[0], cycle), calls[1..], cycle)
  }

  lemma PoppedList(s: State, o: Handle)
    requires Sound(s.timers) && s.timers.pending != [] && Owned(s) && o == s.timers.pending[0].owner
    ensures OwnedList(Pop(s).timers.pending, s.index, {o}) && o in s.index && o !in Owners(Pop(s).timers.pending)
  {
    assert s.timers.pending[0] in s.timers.pending;
    OneTimerPerHandle(s, o);
    OwnersOfRemove(s.timers.pending, 0);
  }

  lemma ResetOwn(s: State, o: Handle)
    requires OwnedList(s.timers.pending, s.index, {o}) && o in s.index
    ensures Owned(s.(index := s.index[o := NOT_RUNNING]))
  {
  }

  lemma FirstCall(s: State, call: Call, cycle: nat)
    requires Sound(s.timers) && s.timers.pending != [] && Owned(s) && 0 < cycle < TWO32
    requires call.h == s.timers.pending[0].owner && (call.Reset? || call.Add?) && Fits(call, s.index.Keys)
    ensures var r := Apply(Pop(s), call, cycle);
      Owned(r) && Sound(r.timers) && r.timers.removed == s.timers.removed
  {
    PoppedList(s, call.h);
    PoppingSound(s.timers);
    ApplySound(Pop(s), call, cycle);
    if call.Add? {
      AddOwn(Pop(s), call.h, Deadline(call.delay, call.clock, cycle), {call.h});
    } else {
      ResetOwn(Pop(s), call.h);
    }
  }

  /** Each timer removed since was removed through its owner's handle. */
  ghost predicate RemovedByOwner(old_: seq<Removal>, new_: seq<Removal>) {
    old_ <= new_ && forall i :: |old_| <= i < |new_| ==> new_[i].timer.owner == new_[i].call.h
  }

  lemma ByOwnerJoin(r0: seq<Removal>, r1: seq<Removal>, r2: seq<Removal>)
    requires RemovedByOwner(r0, r1) && RemovedByOwner(r1, r2)
    ensures RemovedByOwner(r0, r2)
  {
    forall i | |r0| <= i < |r2|
      ensures r2[i].timer.owner == r2[i].call.h
    {
      if i < |r1| {
        assert r2[i] == r1[i];
      }
    }
  }

  lemma OwnCall(s: State, call: Call, cycle: nat)
    requires Sound(s.timers) && Owned(s) && Fits(call, s.index.Keys) && 0 < cycle < TWO32 && Proper(s, call)
    ensures var r := Apply(s, call, cycle);
      Owned(r) && Sound(r.timers) && RemovedByOwner(s.timers.removed, r.timers.removed)
  {
    OnlyOwnTimer(s, call, cycle);
    ApplySound(s, call, cycle);
    ByOwner(s.timers.removed, Apply(s, call, cycle).timers.removed, call);
  }

  lemma ByOwner(old_: seq<Removal>, new_: seq<Removal>, call: Call)
    requires RemovedBy(old_, new_, [call]) && forall i :: |old_| <= i < |new_| ==> new_[i].timer.owner == call.h
    ensures RemovedByOwner(old_, new_)
  {
    forall i | |old_| <= i < |new_|
      ensures new_[i].timer.owner == new_[i].call.h
    {
      assert ByName(new_[i]) && new_[i].call in [call];
    }
  }

  lemma {:induction false} CallsKeepOwned(s: State, calls: seq<Call>, cycle: nat)
    requires Sound(s.timers) && Owned(s) && 0 < cycle < TWO32 && (forall c <- calls :: Fits(c, s.index.Keys))
    requires ProperAll(s, calls, cycle)
    ensures var r := ApplyAll(s, calls, cycle);
      Owned(r) && RemovedByOwner(s.timers.removed, r.timers.removed)
    decreases |calls|
  {
    if calls != [] {
      assert calls[0] in calls && forall c <- calls[1..] :: c in calls;
      var s1 := Apply(s, calls[0], cycle);
      OwnCall(s, calls[0], cycle);
      CallsKeepOwned(s1, calls[1..], cycle);
      ByOwnerJoin(s.timers.removed, s1.timers.removed, ApplyAll(s1, calls[1..], cycle).timers.removed);
    }
  }

  lemma RoundKeepsOwned(s: State, calls: seq<Call>, cycle: nat)
    requires Sound(s.timers) && s.timers.pending != [] && Owned(s) && 0 < cycle < TWO32
    requires (forall c <- calls :: Fits(c, s.index.Keys)) && Conduct(Pop(s), s.timers.pending[0].owner, calls, cycle)
    ensures var r := ApplyAll(Pop(s), calls, cycle); Owned(r) && RemovedByOwner(s.timers.removed, r.timers.removed)
  {
    assert calls[0] in calls && forall c <- calls[1..] :: c in calls;
    FirstCall(s, calls[0], cycle);
    CallsKeepOwned(Apply(Pop(s), calls[0], cycle), calls[1..], cycle);
  }

  /** All callbacks of a tick keep the discipline. */
  ghost predicate Conducted(s: State, script: seq<seq<Call>>, cycle: nat, now: nat, base: nat)
    requires Ready(s, script, cycle, now, base)
    decreases |script|, |Due(s.timers.pending, now)|
  {
    if !IsDue(s.timers.pending, now) then true
    else
      RoundIsReady(s, script, cycle, now, base);
      && Conduct(Pop(s), s.timers.pending[0].owner, Calls(script), cycle)
      && Conducted(Round(s, script, cycle), Rest(script), cycle, now, base)
  }

  /** Then the discipline holds after the tick, and every timer removed was removed through its owner's handle. */
  lemma {:induction false} TickKeepsOwned(s: State, script: seq<seq<Call>>, cycle: nat, now: nat, base: nat)
    requires Ready(s, script, cycle, now, base) && Owned(s) && Conducted(s, script, cycle, now, base)
    ensures var r := Tick(s, script, cycle, now, base).state;
      Owned(r) && RemovedByOwner(s.timers.removed, r.timers.removed)
    decreases |script|, |Due(s.timers.pending, now)|
  {
    if IsDue(s.timers.pending, now) {
      RoundIsReady(s, script, cycle, now, base);
      var s1 := Round(s, script, cycle);
      RoundKeepsOwned(s, Calls(script), cycle);
      TickKeepsOwned(s1, Rest(script), cycle, now, base);
      ByOwnerJoin(s.timers.removed, s1.timers.removed, Tick(s1, Rest(script), cycle, now, base).state.timers.removed);
    }
  }
}
