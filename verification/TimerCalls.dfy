/**
 What the calls of the scheduler in src/common/pf_scheduler.c do to the timers that are pending, to the free slots and
 to the clients' handles. The class in Scheduler performs the same on the array, and is proved against these
 functions.

 An addition by another thread can overlap with other calls: its sections are calls of their own here.
 Nothing asks that a client has one timer only: a client may add while an earlier timer of the same handle is
 pending, as the alarm transport does. TimerOwners has what holds if clients do keep to one timer.
 */
module TimerCalls {
  import opened WrapTime
  import opened PendingTimers
  import opened SlotLists

  type Timer = Pending<Handle>

  /** A call by a client; an addition reads the clock. The last four are the sections of an addition. */
  datatype Call =
    | Add(h: Handle, delay: nat, clock: nat)              // pf_scheduler_add
    | Remove(h: Handle)                                   // pf_scheduler_remove_if_running
    | Restart(h: Handle, delay: nat, clock: nat)          // pf_scheduler_restart
    | Reset(h: Handle)                                    // pf_scheduler_reset_handle
    | Take(h: Handle)                                     // with the mutex: a slot leaves the free list
    | Fill(h: Handle, ix: nat, delay: nat, clock: nat)    // the slot is filled
    | Link(h: Handle, ix: nat)                            // with the mutex: it joins the busy list
    | Keep(h: Handle, ix: nat)                            // the handle is set

  /** A timer that was removed before it fired, and the call that removed it. */
  datatype Removal = Removal(timer: Timer, call: Call)

  /** A slot that belongs to an unfinished addition. */
  datatype Slot = Empty | Filled(h: Handle, when: nat)

  datatype Timers = Timers(
    pending: seq<Timer>,        // in list order
    free: seq<nat>,             // slots, in list order
    taken: map<nat, Slot>,
    nextUid: nat,               // number of timers that have become pending so far
    removed: seq<Removal>)

  datatype State = State(timers: Timers, index: map<Handle, nat>)

  function Slots(p: seq<Timer>): (r: seq<nat>)
    ensures |r| == |p| && forall i :: 0 <= i < |p| ==> r[i] == p[i].slot
  {
    seq(|p|, i requires 0 <= i < |p| => p[i].slot)
  }

  function Gone(rs: seq<Removal>): set<nat> {
    set i | 0 <= i < |rs| :: rs[i].timer.uid
  }

  // ---------------------------------------------------------------------------------------------
  // The timers

  function Removing(x: Timers, k: nat, call: Call): Timers
    requires k < |x.pending|
  {
    x.(pending := RemoveAt(x.pending, k), free := InsertAt(x.free, 0, x.pending[k].slot),
       removed := x.removed + [Removal(x.pending[k], call)])
  }

  function Taking(x: Timers): Timers
    requires x.free != []
  {
    x.(free := x.free[1..], taken := x.taken[x.free[0] := Empty])
  }

  predicate IsEmpty(x: Timers, ix: nat) {
    ix in x.taken && x.taken[ix].Empty?
  }

  predicate IsFilled(x: Timers, ix: nat, h: Handle) {
    ix in x.taken && x.taken[ix].Filled? && x.taken[ix].h == h
  }

  function Filling(x: Timers, ix: nat, h: Handle, when: nat): Timers {
    x.(taken := x.taken[ix := Filled(h, when)])
  }

  /** The timer that a filled slot becomes. */
  function Linked(x: Timers, ix: nat, h: Handle): Timer
    requires IsFilled(x, ix, h)
  {
    Pending(ix, x.taken[ix].when, h, x.nextUid)
  }

  function Linking(x: Timers, ix: nat, h: Handle): Timers
    requires IsFilled(x, ix, h)
  {
    x.(pending := Insert(x.pending, Linked(x, ix, h)), taken := x.taken - {ix}, nextUid := x.nextUid + 1)
  }

  /** A whole addition. */
  function Adding(x: Timers, h: Handle, when: nat): Timers {
    if x.free == [] then x
    else
      x.(pending := Insert(x.pending, Pending(x.free[0], when, h, x.nextUid)), free := x.free[1..],
         nextUid := x.nextUid + 1)
  }

  /** The first timer leaves in order to fire. */
  function Popping(x: Timers): Timers
    requires x.pending != []
  {
    x.(pending := RemoveAt(x.pending, 0), free := InsertAt(x.free, 0, x.pending[0].slot))
  }

  // ---------------------------------------------------------------------------------------------
  // The calls

  /** The place of the timer in a slot, or the length. */
  function Find(p: seq<Timer>, slot: nat): (k: nat)
    ensures k <= |p| && (k < |p| ==> p[k].slot == slot)
    ensures forall i :: 0 <= i < k ==> p[i].slot != slot
  {
    if p == [] then 0
    else if p[0].slot == slot then 0
    else
      assert forall i :: 0 < i < |p| ==> p[i] == p[1..][i - 1];
      1 + Find(p[1..], slot)
  }

  lemma FindOnly(p: seq<Timer>, i: nat)
    requires i < |p| && Distinct(p)
    ensures Find(p, p[i].slot) == i
  {
    assert Find(p, p[i].slot) <= i;
  }

  /** The place of the timer that a removal through h takes: it is in h's slot, under h's name. */
  function Target(s: State, h: Handle): (k: nat)
    requires h in s.index
    ensures k <= |s.timers.pending|
    ensures k < |s.timers.pending| ==>
      s.timers.pending[k].slot + 1 == s.index[h] && s.timers.pending[k].owner.name == h.name
  {
    var p := s.timers.pending;
    var k := if s.index[h] == 0 then |p| else Find(p, s.index[h] - 1);
    if k < |p| && p[k].owner.name == h.name then k else |p|
  }

  /** A removal through h would take the slot of an addition that another thread has not finished. */
  predicate HitsTaken(s: State, h: Handle)
    requires h in s.index
  {
    && s.index[h] > 0 && s.index[h] - 1 in s.timers.taken
    && s.timers.taken[s.index[h] - 1].Filled? && s.timers.taken[s.index[h] - 1].h.name == h.name
  }

  /** pf_scheduler_remove_if_running, for the given call, unless it hits a taken slot */
  function RemoveBy(s: State, h: Handle, call: Call): (r: State)
    requires h in s.index
    ensures r.index.Keys == s.index.Keys
  {
    var k := Target(s, h);
    if k < |s.timers.pending| then State(Removing(s.timers, k, call), s.index[h := NOT_RUNNING]) else s
  }

  /** pf_scheduler_add, with the deadline that it computes */
  function AddAt(s: State, h: Handle, when: nat): (r: State)
    requires h in s.index
    ensures r.index.Keys == s.index.Keys
  {
    State(Adding(s.timers, h, when), s.index[h := if s.timers.free == [] then NOT_RUNNING else s.timers.free[0] + 1])
  }

  function Deadline(delay: nat, clock: nat, cycle: nat): nat
    requires 0 < cycle < TWO32 && delay < TWO32
  {
    Add32(clock, SanitizeDelay(delay, cycle))
  }

  /** The call makes a deadline. */
  predicate Delays(call: Call) {
    call.Add? || call.Restart? || call.Fill?
  }

  predicate Fits(call: Call, handles: set<Handle>) {
    call.h in handles && (Delays(call) ==> call.delay < TWO32 && call.clock < TWO32)
  }

  /** A section of an addition whose slot is not in the right condition does nothing here; see CanDo. */
  function Apply(s: State, call: Call, cycle: nat): (r: State)
    requires Fits(call, s.index.Keys) && 0 < cycle < TWO32
    ensures r.index.Keys == s.index.Keys
  {
    match call
    case Add(h, delay, clock) => AddAt(s, h, Deadline(delay, clock, cycle))
    case Remove(h) => RemoveBy(s, h, call)
    case Restart(h, delay, clock) => AddAt(RemoveBy(s, h, call), h, Deadline(delay, clock, cycle))
    case Reset(h) => s.(index := s.index[h := NOT_RUNNING])
    case Take(h) =>
      if s.timers.free == [] then s.(index := s.index[h := NOT_RUNNING]) else s.(timers := Taking(s.timers))
    case Fill(h, ix, delay, clock) =>
      if IsEmpty(s.timers, ix) then s.(timers := Filling(s.timers, ix, h, Deadline(delay, clock, cycle))) else s
    case Link(h, ix) => if IsFilled(s.timers, ix, h) then s.(timers := Linking(s.timers, ix, h)) else s
    case Keep(h, ix) => s.(index := s.index[h := ix + 1])
  }

  /**
   What the code can be asked: a section follows the ones before it, and a removal does not hit the slot of an
   unfinished addition.
   */
  predicate CanDo(s: State, call: Call)
    requires call.h in s.index
  {
    match call
    case Remove(h) => !HitsTaken(s, h)
    case Restart(h, _, _) => !HitsTaken(s, h)
    case Fill(_, ix, _, _) => IsEmpty(s.timers, ix)
    case Link(h, ix) => IsFilled(s.timers, ix, h)
    case _ => true
  }

  function ApplyAll(s: State, calls: seq<Call>, cycle: nat): (r: State)
    requires (forall c <- calls :: Fits(c, s.index.Keys)) && 0 < cycle < TWO32
    ensures r.index.Keys == s.index.Keys
    decreases |calls|
  {
    if calls == [] then s
    else
      assert calls[0] in calls && forall c <- calls[1..] :: c in calls;
      ApplyAll(Apply(s, calls[0], cycle), calls[1..], cycle)
  }

  // ---------------------------------------------------------------------------------------------
  // What every call keeps

  /** Additions are numbered in turn, and a removed one never comes back. */
  ghost predicate Numbered(p: seq<Timer>, removed: seq<Removal>, next: nat) {
    && (forall i :: 0 <= i < |p| ==> p[i].uid < next && p[i].uid !in Gone(removed))
    && (forall u <- Gone(removed) :: u < next)
  }

  /** A slot is in one place only. */
  ghost predicate Apart(p: seq<Timer>, free: seq<nat>, taken: map<nat, Slot>) {
    && (forall i :: 0 <= i < |p| ==> p[i].slot !in free && p[i].slot !in taken && p[i].slot + 1 < NOT_RUNNING)
    && (forall i :: 0 <= i < |free| ==> free[i] !in taken && free[i] + 1 < NOT_RUNNING)
    && (forall i, j :: 0 <= i < j < |free| ==> free[i] != free[j])
    && (forall j <- taken :: j + 1 < NOT_RUNNING)
  }

  ghost predicate Sound(x: Timers) {
    Distinct(x.pending) && Numbered(x.pending, x.removed, x.nextUid) && Apart(x.pending, x.free, x.taken)
  }

  ghost predicate Changed(x: Timers, x': Timers) {
    Evolved(x.pending, Gone(x.removed), x.nextUid, x'.pending, Gone(x'.removed), x'.nextUid)
  }

  /** The removals since are by the given calls, each of a timer that has the name of the handle. */
  ghost predicate RemovedBy(old_: seq<Removal>, new_: seq<Removal>, calls: seq<Call>) {
    old_ <= new_ && forall i :: |old_| <= i < |new_| ==> ByName(new_[i]) && new_[i].call in calls
  }

  predicate ByName(r: Removal) {
    (r.call.Remove? || r.call.Restart?) && r.timer.owner.name == r.call.h.name
  }

  /** What calls make of the timers. */
  ghost predicate Follows(x: Timers, x': Timers, calls: seq<Call>) {
    Sound(x') && Changed(x, x') && RemovedBy(x.removed, x'.removed, calls)
  }

  lemma FollowsJoin(x: Timers, x1: Timers, x2: Timers, cs: seq<Call>, ds: seq<Call>, es: seq<Call>)
    requires Follows(x, x1, cs) && Follows(x1, x2, ds)
    requires (forall c <- cs :: c in es) && (forall c <- ds :: c in es)
    ensures Follows(x, x2, es)
  {
    EvolvedJoin(x.pending, Gone(x.removed), x.nextUid, x1.pending, Gone(x1.removed), x1.nextUid,
                x2.pending, Gone(x2.removed), x2.nextUid);
    RemovedJoin(x.removed, x1.removed, x2.removed, cs, ds, es);
  }

  lemma RemovedJoin(r0: seq<Removal>, r1: seq<Removal>, r2: seq<Removal>, cs: seq<Call>, ds: seq<Call>, es: seq<Call>)
    requires RemovedBy(r0, r1, cs) && RemovedBy(r1, r2, ds)
    requires (forall c <- cs :: c in es) && (forall c <- ds :: c in es)
    ensures RemovedBy(r0, r2, es)
  {
    forall i | |r0| <= i < |r2|
      ensures ByName(r2[i]) && r2[i].call in es
    {
      if i < |r1| {
        assert r2[i] == r1[i];
      }
    }
  }

  /** Where neither pending nor removed timers change, only the slots matter. */
  lemma FollowsStill(x: Timers, x': Timers, calls: seq<Call>)
    requires Sound(x) && x'.pending == x.pending && x'.removed == x.removed && x'.nextUid == x.nextUid
    requires Apart(x'.pending, x'.free, x'.taken)
    ensures Follows(x, x', calls)
  {
    EvolvedStays(x.pending, Gone(x.removed), x.nextUid);
  }

  lemma GoneOfSnoc(rs: seq<Removal>, r: Removal)
    ensures Gone(rs + [r]) == Gone(rs) + {r.timer.uid}
  {
    var t := rs + [r];
    assert t[|rs|] == r;
    forall u | u in Gone(rs) ensures u in Gone(t) {
      var i :| 0 <= i < |rs| && rs[i].timer.uid == u;
      assert t[i] == rs[i];
    }
  }

  lemma InRemoveAt(p: seq<Timer>, k: nat)
    requires k < |p| && Distinct(p)
    ensures forall i :: 0 <= i < |p| - 1 ==>
      var x := RemoveAt(p, k)[i]; x in p && x.uid != p[k].uid && x.slot != p[k].slot
    ensures Distinct(RemoveAt(p, k))
  {
    var r := RemoveAt(p, k);
    assert forall i :: 0 <= i < |r| ==> r[i] == p[if i < k then i else i + 1];
  }

  lemma RemoveApart(p: seq<Timer>, free: seq<nat>, taken: map<nat, Slot>, k: nat)
    requires k < |p| && Distinct(p) && Apart(p, free, taken)
    ensures Apart(RemoveAt(p, k), InsertAt(free, 0, p[k].slot), taken)
  {
    var r, f := RemoveAt(p, k), InsertAt(free, 0, p[k].slot);
    assert forall i :: 0 <= i < |f| ==> f[i] == if i == 0 then p[k].slot else free[i - 1];
    forall i | 0 <= i < |r|
      ensures r[i].slot !in f && r[i].slot !in taken && r[i].slot + 1 < NOT_RUNNING
    {
      var j := if i < k then i else i + 1;
      assert r[i] == p[j] && p[j].slot != p[k].slot && p[j].slot !in free;
    }
  }

  lemma NumberedWithout(p: seq<Timer>, removed: seq<Removal>, next: nat, k: nat, call: Call)
    requires k < |p| && Distinct(p) && Numbered(p, removed, next)
    ensures Numbered(RemoveAt(p, k), removed, next)
    ensures Numbered(RemoveAt(p, k), removed + [Removal(p[k], call)], next)
  {
    GoneOfSnoc(removed, Removal(p[k], call));
    var r := RemoveAt(p, k);
    assert forall i :: 0 <= i < |r| ==> r[i] == p[if i < k then i else i + 1];
  }

  lemma RemovingSound(x: Timers, k: nat, call: Call)
    requires Sound(x) && k < |x.pending| && (call.Remove? || call.Restart?) && x.pending[k].owner.name == call.h.name
    ensures Follows(x, Removing(x, k, call), [call])
  {
    GoneOfSnoc(x.removed, Removal(x.pending[k], call));
    EvolvedByRemove(x.pending, Gone(x.removed), x.nextUid, k);
    InRemoveAt(x.pending, k);
    NumberedWithout(x.pending, x.removed, x.nextUid, k, call);
    RemoveApart(x.pending, x.free, x.taken, k);
  }

  lemma PoppingSound(x: Timers)
    requires Sound(x) && x.pending != []
    ensures Sound(Popping(x)) && Popping(x).pending == x.pending[1..]
  {
    InRemoveAt(x.pending, 0);
    NumberedWithout(x.pending, x.removed, x.nextUid, 0, Reset(x.pending[0].owner));
    RemoveApart(x.pending, x.free, x.taken, 0);
  }

  lemma TakingSound(x: Timers, calls: seq<Call>)
    requires Sound(x) && x.free != []
    ensures Follows(x, Taking(x), calls)
  {
    var f := x.free[1..];
    assert x.free[0] in x.free && forall i :: 0 <= i < |f| ==> f[i] == x.free[i + 1];
    FollowsStill(x, Taking(x), calls);
  }

  lemma FillingSound(x: Timers, ix: nat, h: Handle, when: nat, calls: seq<Call>)
    requires Sound(x) && ix in x.taken
    ensures Follows(x, Filling(x, ix, h, when), calls)
  {
    FollowsStill(x, Filling(x, ix, h, when), calls);
  }

  lemma LinkingSound(x: Timers, ix: nat, h: Handle, calls: seq<Call>)
    requires Sound(x) && IsFilled(x, ix, h)
    ensures Follows(x, Linking(x, ix, h), calls)
  {
    var e := Linked(x, ix, h);
    EvolvedByInsert(x.pending, Gone(x.removed), e);
    var k := ScanPosition(x.pending, e);
    InsertedIsDistinct(x.pending, e, k);
    InsertedIsNumbered(x.pending, e, k, x.removed);
    InsertedIsApart(x.pending, e, k, x.free, x.taken);
  }

  lemma InsertedIsDistinct(p: seq<Timer>, e: Timer, k: nat)
    requires k <= |p| && Distinct(p) && forall i :: 0 <= i < |p| ==> p[i].uid < e.uid && p[i].slot != e.slot
    ensures Distinct(p[..k] + [e] + p[k..])
  {
    var q := p[..k] + [e] + p[k..];
    assert forall i :: 0 <= i < |q| ==> q[i] == if i < k then p[i] else if i == k then e else p[i - 1];
  }

  lemma InsertedIsNumbered(p: seq<Timer>, e: Timer, k: nat, removed: seq<Removal>)
    requires k <= |p| && Numbered(p, removed, e.uid)
    ensures Numbered(p[..k] + [e] + p[k..], removed, e.uid + 1)
  {
    var q := p[..k] + [e] + p[k..];
    assert forall i :: 0 <= i < |q| ==> q[i] == if i < k then p[i] else if i == k then e else p[i - 1];
  }

  lemma InsertedIsApart(p: seq<Timer>, e: Timer, k: nat, free: seq<nat>, taken: map<nat, Slot>)
    requires k <= |p| && Apart(p, free, taken) && e.slot in taken
    ensures Apart(p[..k] + [e] + p[k..], free, taken - {e.slot})
  {
    var q := p[..k] + [e] + p[k..];
    assert forall i :: 0 <= i < |q| ==> q[i] == if i < k then p[i] else if i == k then e else p[i - 1];
    assert e.slot !in free;
  }

  /** A whole addition is its sections in a row. */
  lemma AddingInSections(x: Timers, h: Handle, when: nat)
    requires Sound(x) && x.free != []
    ensures var y := Filling(Taking(x), x.free[0], h, when);
      IsFilled(y, x.free[0], h) && Adding(x, h, when) == Linking(y, x.free[0], h)
  {
    var ix := x.free[0];
    assert x.taken[ix := Empty][ix := Filled(h, when)] - {ix} == x.taken;
  }

  lemma AddingSound(x: Timers, h: Handle, when: nat, calls: seq<Call>)
    requires Sound(x)
    ensures Follows(x, Adding(x, h, when), calls)
  {
    if x.free == [] {
      FollowsStill(x, x, calls);
    } else {
      var ix := x.free[0];
      var x1, x2 := Taking(x), Filling(Taking(x), ix, h, when);
      TakingSound(x, calls);
      FillingSound(x1, ix, h, when, calls);
      FollowsJoin(x, x1, x2, calls, calls, calls);
      LinkingSound(x2, ix, h, calls);
      FollowsJoin(x, x2, Linking(x2, ix, h), calls, calls, calls);
      AddingInSections(x, h, when);
    }
  }

  lemma RemoveSound(s: State, h: Handle, call: Call)
    requires Sound(s.timers) && h in s.index && call.h == h && (call.Remove? || call.Restart?)
    ensures Follows(s.timers, RemoveBy(s, h, call).timers, [call])
  {
    var k := Target(s, h);
    if k < |s.timers.pending| {
      RemovingSound(s.timers, k, call);
    } else {
      FollowsStill(s.timers, s.timers, [call]);
    }
  }

  /** Every call keeps the timers sound, and loses only timers that it removes. */
  lemma ApplySound(s: State, call: Call, cycle: nat)
    requires Sound(s.timers) && Fits(call, s.index.Keys) && 0 < cycle < TWO32
    ensures Follows(s.timers, Apply(s, call, cycle).timers, [call])
  {
    var x := s.timers;
    match call {
      case Add(h, delay, clock) => AddingSound(x, h, Deadline(delay, clock, cycle), [call]);
      case Remove(h) => RemoveSound(s, h, call);
      case Restart(h, delay, clock) =>
        RemoveSound(s, h, call);
        var x1, when := RemoveBy(s, h, call).timers, Deadline(delay, clock, cycle);
        AddingSound(x1, h, when, [call]);
        FollowsJoin(x, x1, Adding(x1, h, when), [call], [call], [call]);
      case _ => SectionSound(s, call, cycle);
    }
  }

  lemma SectionSound(s: State, call: Call, cycle: nat)
    requires Sound(s.timers) && Fits(call, s.index.Keys) && 0 < cycle < TWO32
    requires !call.Add? && !call.Remove? && !call.Restart?
    ensures Follows(s.timers, Apply(s, call, cycle).timers, [call])
  {
    var x := s.timers;
    if call.Take? && x.free != [] {
      TakingSound(x, [call]);
    } else if call.Fill? && IsEmpty(x, call.ix) {
      FillingSound(x, call.ix, call.h, Deadline(call.delay, call.clock, cycle), [call]);
    } else if call.Link? && IsFilled(x, call.ix, call.h) {
      LinkingSound(x, call.ix, call.h, [call]);
    } else {
      FollowsStill(x, x, [call]);
    }
  }

  lemma {:induction false} ApplyAllSound(s: State, calls: seq<Call>, cycle: nat)
    requires Sound(s.timers) && (forall c <- calls :: Fits(c, s.index.Keys)) && 0 < cycle < TWO32
    ensures Follows(s.timers, ApplyAll(s, calls, cycle).timers, calls)
    decreases |calls|
  {
    if calls == [] {
      FollowsStill(s.timers, s.timers, calls);
    } else {
      assert calls[0] in calls && forall c <- calls[1..] :: c in calls;
      var s1 := Apply(s, calls[0], cycle);
      ApplySound(s, calls[0], cycle);
      ApplyAllSound(s1, calls[1..], cycle);
      FollowsJoin(s.timers, s1.timers, ApplyAll(s1, calls[1..], cycle).timers, [calls[0]], calls[1..], calls);
    }
  }

  /** An addition that is not interrupted is the sequence of its four sections. */
  lemma AddInSections(s: State, h: Handle, delay: nat, clock: nat, cycle: nat)
    requires Sound(s.timers) && Fits(Add(h, delay, clock), s.index.Keys) && 0 < cycle < TWO32
    ensures s.timers.free == [] ==> Apply(s, Add(h, delay, clock), cycle) == Apply(s, Take(h), cycle)
    ensures s.timers.free != [] ==>
      var ix := s.timers.free[0];
      Apply(s, Add(h, delay, clock), cycle) ==
      Apply(Apply(Apply(Apply(s, Take(h), cycle), Fill(h, ix, delay, clock), cycle), Link(h, ix), cycle), Keep(h, ix), cycle)
  {
    if s.timers.free != [] {
      AddingInSections(s.timers, h, Deadline(delay, clock, cycle));
    }
  }

  // ---------------------------------------------------------------------------------------------
  // Every timer is accounted for

  /** Each timer that has become pending is still pending, or was removed, or has fired, and only one of these. */
  ghost predicate Accounted(x: Timers, fired: set<nat>) {
    && (forall u: nat :: u < x.nextUid <==> u in Uids(x.pending) || u in Gone(x.removed) || u in fired)
    && Uids(x.pending) !! Gone(x.removed) && Uids(x.pending) !! fired && Gone(x.removed) !! fired
  }

  lemma RemovingAccounted(x: Timers, k: nat, call: Call, fired: set<nat>)
    requires Sound(x) && k < |x.pending| && Accounted(x, fired)
    ensures Accounted(Removing(x, k, call), fired)
  {
    var u := x.pending[k].uid;
    UidsOfRemoveAt(x.pending, k);
    GoneOfSnoc(x.removed, Removal(x.pending[k], call));
    assert u in Uids(x.pending);
  }

  lemma PoppingAccounted(x: Timers, fired: set<nat>)
    requires Sound(x) && x.pending != [] && Accounted(x, fired)
    ensures x.pending[0].uid !in fired && Accounted(Popping(x), fired + {x.pending[0].uid})
  {
    var u := x.pending[0].uid;
    UidsOfRemoveAt(x.pending, 0);
    assert u in Uids(x.pending);
  }

  lemma InsertAccounted(x: Timers, e: Timer, fired: set<nat>)
    requires Accounted(x, fired) && e.uid == x.nextUid
    ensures Accounted(x.(pending := Insert(x.pending, e), nextUid := x.nextUid + 1), fired)
  {
    UidsOfInsert(x.pending, e);
  }

  lemma AddingAccounted(x: Timers, h: Handle, when: nat, fired: set<nat>)
    requires Accounted(x, fired)
    ensures Accounted(Adding(x, h, when), fired)
  {
    if x.free != [] {
      InsertAccounted(x, Pending(x.free[0], when, h, x.nextUid), fired);
    }
  }

  lemma RemoveAccounted(s: State, h: Handle, call: Call, fired: set<nat>)
    requires Sound(s.timers) && h in s.index && Accounted(s.timers, fired)
    ensures Accounted(RemoveBy(s, h, call).timers, fired)
  {
    var k := Target(s, h);
    if k < |s.timers.pending| {
      RemovingAccounted(s.timers, k, call, fired);
    }
  }

  lemma ApplyAccounted(s: State, call: Call, cycle: nat, fired: set<nat>)
    requires Sound(s.timers) && Fits(call, s.index.Keys) && 0 < cycle < TWO32 && Accounted(s.timers, fired)
    ensures Accounted(Apply(s, call, cycle).timers, fired)
  {
    match call {
      case Add(h, delay, clock) => AddingAccounted(s.timers, h, Deadline(delay, clock, cycle), fired);
      case Remove(h) => RemoveAccounted(s, h, call, fired);
      case Restart(h, delay, clock) =>
        RemoveAccounted(s, h, call, fired);
        AddingAccounted(RemoveBy(s, h, call).timers, h, Deadline(delay, clock, cycle), fired);
      case Link(h, ix) =>
        if IsFilled(s.timers, ix, h) {
          InsertAccounted(s.timers, Linked(s.timers, ix, h), fired);
        }
      case _ =>
    }
  }

  lemma {:induction false} ApplyAllAccounted(s: State, calls: seq<Call>, cycle: nat, fired: set<nat>)
    requires Sound(s.timers) && (forall c <- calls :: Fits(c, s.index.Keys)) && 0 < cycle < TWO32
    requires Accounted(s.timers, fired)
    ensures Accounted(ApplyAll(s, calls, cycle).timers, fired)
    decreases |calls|
  {
    if calls != [] {
      assert calls[0] in calls && forall c <- calls[1..] :: c in calls;
      ApplySound(s, calls[0], cycle);
      ApplyAccounted(s, calls[0], cycle, fired);
      ApplyAllAccounted(Apply(s, calls[0], cycle), calls[1..], cycle, fired);
    }
  }
}
