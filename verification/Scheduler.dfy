/**
 The scheduler of src/common/pf_scheduler.c: an array of timers on two lists, changed in place. Each method is
 proved against the functions of TimerCalls and TimerTicks.

 Every method below that stands for a section run under the mutex keeps Valid(), which also
 describes the states in which other threads are between the sections of pf_scheduler_add.
 */
module Scheduler {
  import opened WrapTime
  import opened PendingTimers
  import opened SlotLists
  import opened TimerCalls
  import opened TimerTicks
  import opened TimerDelays
  import opened TimerArray

  /** The loop of pf_scheduler_init: all slots are put on the free list, the first one first. */
  method InitFreeList(t: array<Timeout>) returns (head: nat)
    modifies t
    ensures IsList(t[..], head, Range(0, t.Length))
    ensures forall j :: 0 <= j < t.Length ==> !t[j].inUse
  {
    var ix := t.Length;
    head := ix;
    ghost var free := [];
    while ix > 0
      invariant 0 <= ix <= t.Length
      invariant free == Range(ix, t.Length) && IsList(t[..], head, free)
      invariant forall j :: ix <= j < t.Length ==> !t[j].inUse
    {
      ghost var ts := t[..];
      t[ix - 1] := t[ix - 1].(name := "<free>", inUse := false);
      ListFrame(ts, t[..], head, free);
      head := LinkBefore(t, head, ix - 1, head, free, 0);
      free := InsertAt(free, 0, ix - 1);
      RangeGrows(ix - 1, t.Length);
      ix := ix - 1;
    }
  }

  lemma RangeGrows(lo: nat, hi: nat)
    requires lo < hi
    ensures InsertAt(Range(lo + 1, hi), 0, lo) == Range(lo, hi)
  {
  }

  /** The place search of pf_scheduler_add in a list whose first timer is earlier. */
  method FindPlace(t: array<Timeout>, head: nat, when: nat, ghost p: seq<Timer>) returns (ixPrev: nat, ghost k: nat)
    requires IsList(t[..], head, Slots(p)) && Holds(t[..], p)
    requires p != [] && SDiff(when, p[0].when) > 0
    ensures 1 <= k <= |p| && ixPrev == Slots(p)[k - 1]
    ensures forall j :: 0 <= j < k ==> SDiff(when, p[j].when) > 0
    ensures k < |p| ==> SDiff(when, p[k].when) <= 0
  {
    ghost var busy := Slots(p);
    assert LinkedAt(t[..], busy, 0);
    ixPrev := head;
    var ixThis := t[head].next;
    k := 1;
    while ixThis < t.Length && SDiff(when, t[ixThis].when) > 0
      invariant 1 <= k <= |busy|
      invariant ixPrev == busy[k - 1] && ixThis == (if k < |busy| then busy[k] else t.Length)
      invariant forall j :: 0 <= j < k ==> SDiff(when, p[j].when) > 0
      decreases |busy| - k
    {
      assert LinkedAt(t[..], busy, k) && p[k] in p;
      ixPrev := ixThis;
      ixThis := t[ixThis].next;
      k := k + 1;
    }
    if k < |busy| {
      assert LinkedAt(t[..], busy, k) && p[k] in p;
    }
  }

  /** The linking of pf_scheduler_add at that place. */
  method LinkSorted(t: array<Timeout>, head: nat, ix: nat, ghost p: seq<Timer>) returns (head': nat, ghost k: nat)
    requires IsList(t[..], head, Slots(p)) && Holds(t[..], p)
    requires ix < t.Length && ix !in Slots(p)
    modifies t
    ensures k <= |p| && IsList(t[..], head', InsertAt(Slots(p), k, ix))
    ensures forall j :: 0 <= j < k ==> SDiff(old(t[ix].when), p[j].when) > 0
    ensures k < |p| ==> SDiff(old(t[ix].when), p[k].when) <= 0
    ensures forall j :: 0 <= j < t.Length ==> SameBody(t[j], old(t[j]))
    ensures forall j :: 0 <= j < t.Length && j !in Slots(p) && j != ix ==> t[j] == old(t[j])
  {
    ghost var busy := Slots(p);
    SlotsInRange(t[..], head, busy);
    if head >= t.Length {
      k := 0;
      head' := LinkBefore(t, head, ix, t.Length, busy, k);
      return;
    }
    assert p[0] in p;
    if SDiff(t[ix].when, t[head].when) <= 0 {
      k := 0;
      head' := LinkBefore(t, head, ix, head, busy, k);
      return;
    }
    var ixPrev;
    ixPrev, k := FindPlace(t, head, t[ix].when, p);
    head' := LinkAfter(t, head, ix, ixPrev, busy, k);
  }

  /** Unlink from one list, if it is there, mark as unused, link in at the front of the other. */
  method MoveToFree(t: array<Timeout>, first: nat, freeHead: nat, ix: nat, ghost busy: seq<nat>, ghost free: seq<nat>, ghost k: nat)
    returns (first': nat, freeHead': nat)
    requires IsList(t[..], first, busy) && IsList(t[..], freeHead, free)
    requires ix < t.Length && ix !in free && (ix in busy ==> k < |busy| && busy[k] == ix) && forall j <- busy :: j !in free
    modifies t
    ensures Moved(old(t[..]), t[..], first, first', freeHead', busy, free, ix, k)
  {
    ghost var ts := t[..];
    first' := Unlink(t, first, ix, busy, k);
    ghost var ts0 := t[..];
    ghost var left := if ix in busy then RemoveAt(busy, k) else busy;
    t[ix] := t[ix].(inUse := false);
    ghost var ts1 := t[..];
    ListFrame(ts, ts1, freeHead, free);
    ListFrame(ts0, ts1, first', left);
    freeHead' := LinkBefore(t, freeHead, ix, freeHead, free, 0);
    ListFrame(ts1, t[..], first', left);
  }

  /** The slots that are reached by following next. */
  predicate Walk(ts: seq<Timeout>, head: nat, ixs: seq<nat>) {
    && head == (if ixs == [] then |ts| else ixs[0])
    && forall i :: 0 <= i < |ixs| ==> ixs[i] < |ts| && ts[ixs[i]].next == if i + 1 < |ixs| then ixs[i + 1] else |ts|
  }

  /** What the handles in play refer to. */
  ghost predicate Indexed(index: map<Handle, nat>)
    reads index.Keys
  {
    forall h <- index :: h.timerIndex == index[h]
  }

  method SetIndex(h: Handle, ix: nat, ghost index: map<Handle, nat>)
    requires h in index && Indexed(index)
    modifies h
    ensures Indexed(index[h := ix])
  {
    h.timerIndex := ix;
  }

  class Scheduler {
    const t: array<Timeout>      // scheduler_timeouts
    const tickInterval: nat      // scheduler_tick_interval
    var first: nat               // scheduler_timeout_first
    var freeHead: nat            // scheduler_timeout_free
    ghost var timers: Timers

    ghost predicate Valid()
      reads this, t
    {
      0 < t.Length < 0x1_0000 && 0 < tickInterval < TWO32 && Represents(t[..], first, freeHead, timers)
    }

    /** The scheduler, and any handles that are in play, are in the state s. */
    ghost predicate Is(s: State)
      reads this, t, s.index.Keys
    {
      Valid() && timers == s.timers && Indexed(s.index)
    }

    /** pf_scheduler_init */
    constructor (max: nat, tickInterval: nat)
      requires 0 < max < 0x1_0000 && 0 < tickInterval < TWO32
      ensures Valid() && fresh(t)
      ensures t.Length == max && this.tickInterval == tickInterval
      ensures timers == Timers([], Range(0, max), map[], 0, [])
    {
      t := new Timeout[max](i => Timeout("", false, 0, 0, 0, null));
      this.tickInterval := tickInterval;
      first := max;
      timers := Timers([], Range(0, max), map[], 0, []);
      new;
      freeHead := InitFreeList(t);
      StartRepresented(t[..], freeHead, Range(0, max));
    }

    /** First section of pf_scheduler_add: unlink the first free slot, if there is one. */
    method TakeFree() returns (ix: nat)
      requires Valid()
      modifies this, t
      ensures Valid()
      ensures timers == if old(timers).free == [] then old(timers) else Taking(old(timers))
      ensures ix == if old(timers).free == [] then t.Length else old(timers).free[0]
      ensures ix <= t.Length && (old(timers).free != [] ==> ix < t.Length)
    {
      ghost var ts, x := t[..], timers;
      ix := freeHead;
      SlotsInRange(ts, freeHead, x.free);
      freeHead := Unlink(t, freeHead, ix, x.free, 0);
      if ix < t.Length {
        TakeRepresented(ts, t[..], first, ix, freeHead, x);
        timers := Taking(x);
      }
    }

    /** Between the sections, outside the mutex: the new owner fills its slot. */
    method FillSlot(ix: nat, h: Handle, when: nat)
      requires Valid() && ix in timers.taken
      modifies this`timers, t
      ensures Valid() && timers == Filling(old(timers), ix, h, when)
    {
      ghost var ts := t[..];
      assert ix < t.Length;
      t[ix] := t[ix].(inUse := true, name := h.name, arg := h, when := when);
      FillRepresented(ts, t[..], first, freeHead, timers, ix, h, when);
      timers := Filling(timers, ix, h, when);
    }

    /** Second section of pf_scheduler_add: link the filled slot into the busy list at its place. */
    method LinkBusy(ix: nat, ghost h: Handle)
      requires Valid() && IsFilled(timers, ix, h)
      modifies this, t
      ensures Valid() && timers == Linking(old(timers), ix, h)
    {
      ghost var ts, x, first0 := t[..], timers, first;
      assert ix < t.Length && SlotHas(t[ix], x.taken[ix]);
      NotBusy(x, ix);
      ghost var k;
      first, k := LinkSorted(t, first, ix, x.pending);
      LinkRepresented(ts, t[..], first0, first, freeHead, x, ix, h, k);
      timers := Linking(x, ix, h);
    }

    /** pf_scheduler_add */
    method Add(delay: nat, h: Handle, now: nat, ghost s: State) returns (ret: int)
      requires Is(s) && h in s.index && delay < TWO32 && now < TWO32
      modifies this, t, h
      ensures Is(AddAt(s, h, Deadline(delay, now, tickInterval))) && ret == if s.timers.free == [] then -1 else 0
      ensures forall n :: AsksFor(n, delay, tickInterval) && ret == 0 ==>
        DueOnTick(timers, old(timers.nextUid), h, now, n, tickInterval)
    {
      AddsForDelay(s, h, delay, now, tickInterval);
      var sane := SanitizeDelay(delay, tickInterval);
      var ix := AddTimer(h, Add32(now, sane));
      ret := if ix < t.Length then 0 else -1;
      SetIndex(h, if ix < t.Length then ix + 1 else NOT_RUNNING, s.index);
    }

    /** Both sections with the filling between them. */
    method AddTimer(h: Handle, when: nat) returns (ix: nat)
      requires Valid()
      modifies this, t
      ensures Valid() && timers == Adding(old(timers), h, when)
      ensures ix == if old(timers).free == [] then t.Length else old(timers).free[0]
      ensures ix < t.Length <==> old(timers).free != []
    {
      ghost var x := timers;
      ix := TakeFree();
      if ix < t.Length {
        AddingInSections(x, h, when);
        FillSlot(ix, h, when);
        LinkBusy(ix, h);
      }
    }

    /** The code that tick and remove share: the slot goes to the front of the free list. */
    method MoveSlot(ix: nat, ghost k: nat)
      requires Valid() && Movable(t[..], timers, ix, k)
      modifies this`first, this`freeHead, t
      ensures Moved(old(t[..]), t[..], old(first), first, freeHead, Slots(timers.pending), timers.free, ix, k)
    {
      first, freeHead := MoveToFree(t, first, freeHead, ix, Slots(timers.pending), timers.free, k);
    }

    /** For the slot of a pending timer. */
    method Release(ix: nat, ghost k: nat, ghost x: Timers)
      requires Valid() && k < |timers.pending| && timers.pending[k].slot == ix
      requires Released(timers, x, k) && Sound(x)
      modifies this, t
      ensures Valid() && timers == x
    {
      ghost var ts, was, first0, free0 := t[..], timers, first, freeHead;
      PlaceOf(ts, first, freeHead, was, ix, k);
      MoveSlot(ix, k);
      ReleaseRepresented(ts, t[..], first0, first, free0, freeHead, was, x, ix, k);
      timers := x;
    }

    /** The handle refers to a slot that is in use under the handle's name. */
    predicate Hits(h: Handle)
      reads this, t, h
    {
      0 < h.timerIndex <= t.Length && Hit(t[h.timerIndex - 1], h)
    }

    /** If so, the slot belongs to an unfinished addition or to a pending timer; if not, a removal does nothing. */
    lemma HitIs(s: State, h: Handle, call: Call)
      requires Is(s) && h in s.index
      ensures s.timers == timers && s.index[h] == h.timerIndex
      ensures !Hits(h) ==> !HitsTaken(s, h) && RemoveBy(s, h, call) == s
    {
      HitMeans(t[..], s, h);
    }

    /**
     pf_scheduler_remove, on behalf of a call. It keeps the lists if and only if the slot that it takes does not belong
     to an addition that another thread has not finished. If it does, the slot is on the free list while
     the addition still owns it; see LinkRemoved for what follows.
     */
    method Remove(h: Handle, ghost s: State, ghost call: Call)
      requires Is(s) && h in s.index && call.h == h && (call.Remove? || call.Restart?)
      modifies this, t, h
      ensures Valid() <==> !HitsTaken(s, h)
      ensures !HitsTaken(s, h) ==> Is(RemoveBy(s, h, call))
      ensures HitsTaken(s, h) ==>
        Overlaps(s.index[h] - 1, s.timers) && first == old(first) && Indexed(s.index[h := NOT_RUNNING])
    {
      HitIs(s, h, call);
      if Hits(h) {
        MoveHit(h.timerIndex - 1, s, h, call);
        SetIndex(h, NOT_RUNNING, s.index);
      }
    }

    ghost predicate Overlaps(ix: nat, x: Timers)
      reads this, t
    {
      timers == x.(free := InsertAt(x.free, 0, ix)) && Overlap(t[..], first, freeHead, x, ix)
    }

    /** The locked part of a removal that hits. Whose slot it is makes no difference to the code. */
    method MoveHit(ix: nat, ghost s: State, ghost h: Handle, ghost call: Call)
      requires Valid() && s.timers == timers && h in s.index && call.h == h && (call.Remove? || call.Restart?)
      requires ix + 1 == s.index[h] <= t.Length && Hit(t[ix], h)
      modifies this, t
      ensures HitsTaken(s, h) ==> !Valid() && Overlaps(ix, s.timers) && first == old(first)
      ensures !HitsTaken(s, h) ==> Valid() && timers == RemoveBy(s, h, call).timers
      ensures !HitsTaken(s, h) ==> RemoveBy(s, h, call).index == s.index[h := NOT_RUNNING]
    {
      ghost var ts, was, first0, free0 := t[..], timers, first, freeHead;
      ghost var k := Target(s, h);
      HitPlace(ts, first, freeHead, s, h);
      MoveSlot(ix, k);
      if HitsTaken(s, h) {
        TakenMoved(ts, t[..], first0, first, free0, freeHead, was, ix, k);
        timers := was.(free := InsertAt(was.free, 0, ix));
      } else {
        PendingMoved(ts, t[..], first0, first, free0, freeHead, s, h, call);
        timers := RemoveBy(s, h, call).timers;
      }
    }

    /** pf_scheduler_remove_if_running */
    method RemoveIfRunning(h: Handle, ghost s: State, ghost call: Call)
      requires Is(s) && h in s.index && call.h == h && (call.Remove? || call.Restart?) && !HitsTaken(s, h)
      modifies this, t, h
      ensures Is(RemoveBy(s, h, call))
    {
      if h.Running() {
        Remove(h, s, call);
      } else {
        HitIs(s, h, call);
      }
    }

    /** pf_scheduler_restart */
    method Restart(h: Handle, delay: nat, clock: nat, ghost s: State, ghost call: Call) returns (ret: int)
      requires Is(s) && h in s.index && call.h == h && call.Restart? && !HitsTaken(s, h)
      requires delay < TWO32 && clock < TWO32
      modifies this, t, h
      ensures Is(AddAt(RemoveBy(s, h, call), h, Deadline(delay, clock, tickInterval)))
      ensures ret == if RemoveBy(s, h, call).timers.free == [] then -1 else 0
      ensures forall n :: AsksFor(n, delay, tickInterval) && ret == 0 ==>
        DueOnTick(timers, old(timers.nextUid), h, clock, n, tickInterval)
    {
      RemoveIfRunning(h, s, call);
      ret := Add(delay, h, clock, RemoveBy(s, h, call));
    }

    /** The first section of an addition that other calls interrupt. */
    method Begin(h: Handle, ghost s: State)
      requires Is(s) && h in s.index
      modifies this, t, h
      ensures Is(Apply(s, Call.Take(h), tickInterval))
    {
      var ix := TakeFree();
      if ix >= t.Length {
        SetIndex(h, NOT_RUNNING, s.index);
      }
    }

    /** The sections that work on the slot. */
    method GoOn(call: Call, ghost s: State)
      requires Is(s) && Fits(call, s.index.Keys) && CanDo(s, call) && (call.Fill? || call.Link?)
      modifies this, t
      ensures Is(Apply(s, call, tickInterval))
    {
      if call.Fill? {
        FillSlot(call.ix, call.h, Deadline(call.delay, call.clock, tickInterval));
      } else {
        LinkBusy(call.ix, call.h);
      }
    }

    /** One call by a client, or one section of an addition. */
    method Do(call: Call, ghost s: State)
      requires Is(s) && Fits(call, s.index.Keys) && CanDo(s, call)
      modifies this, t, call.h
      ensures Is(Apply(s, call, tickInterval))
    {
      match call {
        case Add(h, delay, clock) =>
          var ret := Add(delay, h, clock, s);
        case Remove(h) => RemoveIfRunning(h, s, call);
        case Restart(h, delay, clock) =>
          var ret := Restart(h, delay, clock, s, call);
        case Reset(h) => SetIndex(h, NOT_RUNNING, s.index);
        case Take(h) => Begin(h, s);
        case Keep(h, ix) => SetIndex(h, ix + 1, s.index);
        case _ => GoOn(call, s);
      }
    }

    /** What is called while a callback runs. */
    method Callback(calls: seq<Call>, ghost s: State)
      requires Is(s) && (forall c <- calls :: Fits(c, s.index.Keys)) && CanDoAll(s, calls, tickInterval)
      modifies this, t, s.index.Keys
      ensures Is(ApplyAll(s, calls, tickInterval))
    {
      var left := calls;
      ghost var s1 := s;
      while left != []
        invariant Is(s1) && s1.index.Keys == s.index.Keys
        invariant Calling(ApplyAll(s, calls, tickInterval), s1, left, tickInterval)
      {
        CallingOn(ApplyAll(s, calls, tickInterval), s1, left, tickInterval);
        Do(left[0], s1);
        s1, left := Apply(s1, left[0], tickInterval), left[1..];
      }
    }

    /** The part of the loop of pf_scheduler_tick that holds the mutex: the first timer leaves the busy list. */
    method PopFirst(ghost s: State) returns (h: Handle)
      requires Is(s) && timers.pending != []
      modifies this, t
      ensures Is(Pop(s)) && h == s.timers.pending[0].owner
    {
      HeadIsFirst();
      h := t[first].arg;
      PoppingSound(timers);
      Release(first, 0, Popping(timers));
    }

    /**
     pf_scheduler_tick at the fixed time `now`. script[k] is what is called while the k-th callback runs, by whatever
     thread. It fires the timers, and leaves the state, that TimerTicks.Tick says.
     */
    method Tick(now: nat, script: seq<seq<Call>>, ghost s: State, ghost base: nat)
      returns (calls: seq<Handle>, ghost fired: seq<Timer>)
      requires Is(s) && Ready(s, script, tickInterval, now, base) && CanTick(s, script, tickInterval, now, base)
      modifies this, t, s.index.Keys
      ensures Is(TimerTicks.Tick(s, script, tickInterval, now, base).state)
      ensures fired == TimerTicks.Tick(s, script, tickInterval, now, base).fired && CalledFor(calls, fired)
    {
      calls, fired := [], [];
      var left := script;
      ghost var whole, s1 := TimerTicks.Tick(s, script, tickInterval, now, base), s;
      ResumeNothing(whole);
      while HeadDue(now)
        invariant At(whole, calls, fired, s1, left, now, base) && s1.index.Keys == s.index.Keys
        decreases |left|, |Due(s1.timers.pending, now)|
      {
        var h := FireFirst(whole, calls, fired, s1, left, now, base);
        calls, fired := calls + [h], fired + [s1.timers.pending[0]];
        s1, left := Round(s1, left, tickInterval), Rest(left);
      }
      TickEnds(whole, calls, fired, s1, left, now, base);
    }

    /** The condition of the loop. */
    predicate HeadDue(now: nat)
      reads this, t
    {
      first < t.Length && Expired(now, t[first].when)
    }

    /** Where the loop is. */
    ghost predicate At(whole: Result, calls: seq<Handle>, fired: seq<Timer>, s: State, left: seq<seq<Call>>, now: nat, base: nat)
      reads this, t, s.index.Keys
    {
      Is(s) && Ticking(whole, fired, s, left, tickInterval, now, base) && CalledFor(calls, fired)
    }

    /** One round of the loop. */
    method FireFirst(ghost whole: Result, ghost calls: seq<Handle>, ghost fired: seq<Timer>, ghost s: State,
                     left: seq<seq<Call>>, now: nat, ghost base: nat) returns (h: Handle)
      requires At(whole, calls, fired, s, left, now, base) && HeadDue(now)
      modifies this, t, s.index.Keys
      ensures s.timers.pending != [] && (forall c <- Calls(left) :: Fits(c, s.index.Keys)) && 0 < tickInterval < TWO32
      ensures var s1 := Round(s, left, tickInterval);
        && At(whole, calls + [h], fired + [s.timers.pending[0]], s1, Rest(left), now, base)
        && (left == [] ==> |Due(s1.timers.pending, now)| < |Due(s.timers.pending, now)|)
    {
      HeadIsFirst();
      TickingOn(whole, fired, s, left, tickInterval, now, base);
      h := PopFirst(s);
      Callback(Calls(left), Pop(s));
      CalledOn(calls, fired, h, s.timers.pending[0]);
    }

    lemma TickEnds(whole: Result, calls: seq<Handle>, fired: seq<Timer>, s: State, left: seq<seq<Call>>, now: nat, base: nat)
      requires At(whole, calls, fired, s, left, now, base) && !HeadDue(now)
      ensures Is(whole.state) && whole.fired == fired && CalledFor(calls, fired)
    {
      HeadIsFirst();
      AllFired(whole, fired, s, left, tickInterval, now, base);
    }

    /** The second section of the addition, after a removal has put its slot on the free list. */
    method LinkOverlap(ix: nat, ghost x: Timers) returns (ghost k: nat)
      requires Overlaps(ix, x) && Sound(x)
      modifies this`first, t
      ensures Merged(t[..], first, freeHead, x.pending, x.free, ix, k)
    {
      NotBusy(x, ix);
      ApartLists(x);
      first, k := LinkRemoved(t, first, freeHead, ix, x.pending, x.free);
    }

    lemma HeadIsFirst()
      requires Valid()
      ensures first < t.Length <==> timers.pending != []
      ensures timers.pending != [] ==> first == timers.pending[0].slot && t[first].when == timers.pending[0].when
      ensures timers.pending != [] ==> t[first].arg == timers.pending[0].owner
    {
      SlotsInRange(t[..], first, Slots(timers.pending));
      if timers.pending != [] {
        assert timers.pending[0] in timers.pending;
      }
    }
  }

  /** What is left of a sequence of calls completes it. */
  ghost predicate Calling(end: State, s: State, left: seq<Call>, cycle: nat) {
    && 0 < cycle < TWO32 && (forall c <- left :: Fits(c, s.index.Keys)) && CanDoAll(s, left, cycle)
    && end == ApplyAll(s, left, cycle)
  }

  lemma CallingOn(end: State, s: State, left: seq<Call>, cycle: nat)
    requires left != [] && Calling(end, s, left, cycle)
    ensures Fits(left[0], s.index.Keys) && CanDo(s, left[0]) && Calling(end, Apply(s, left[0], cycle), left[1..], cycle)
  {
    assert left[0] in left && forall c <- left[1..] :: c in left;
  }

  /** The result of a tick that has fired some timers before. */
  ghost function Resumed(fired: seq<Timer>, r: Result): Result {
    Result(r.state, fired + r.fired)
  }

  lemma ResumeNothing(r: Result)
    ensures Resumed([], r) == r
  {
    assert [] + r.fired == r.fired;
  }

  /** What is left to do completes the whole tick. */
  ghost predicate Ticking(whole: Result, fired: seq<Timer>, s: State, left: seq<seq<Call>>, cycle: nat, now: nat, base: nat) {
    && Ready(s, left, cycle, now, base) && CanTick(s, left, cycle, now, base)
    && whole == Resumed(fired, TimerTicks.Tick(s, left, cycle, now, base))
  }

  lemma TickingOn(whole: Result, fired: seq<Timer>, s: State, left: seq<seq<Call>>, cycle: nat, now: nat, base: nat)
    requires Ticking(whole, fired, s, left, cycle, now, base) && IsDue(s.timers.pending, now)
    ensures (forall c <- Calls(left) :: Fits(c, s.index.Keys)) && CanDoAll(Pop(s), Calls(left), cycle)
    ensures var s1 := Round(s, left, cycle);
      && Ticking(whole, fired + [s.timers.pending[0]], s1, Rest(left), cycle, now, base)
      && (left == [] ==> |Due(s1.timers.pending, now)| < |Due(s.timers.pending, now)|)
  {
    RoundIsReady(s, left, cycle, now, base);
    var r := TimerTicks.Tick(Round(s, left, cycle), Rest(left), cycle, now, base);
    assert fired + ([s.timers.pending[0]] + r.fired) == fired + [s.timers.pending[0]] + r.fired;
  }

  lemma AllFired(whole: Result, fired: seq<Timer>, s: State, left: seq<seq<Call>>, cycle: nat, now: nat, base: nat)
    requires Ticking(whole, fired, s, left, cycle, now, base) && !IsDue(s.timers.pending, now)
    ensures whole == Result(s, fired)
  {
    assert fired + [] == fired;
  }

  /** Each timer that fired called its owner's callback, in order. */
  ghost predicate CalledFor(calls: seq<Handle>, fired: seq<Timer>) {
    |calls| == |fired| && forall i :: 0 <= i < |calls| ==> calls[i] == fired[i].owner
  }

  lemma NotBusy(x: Timers, ix: nat)
    requires Sound(x) && ix in x.taken
    ensures ix !in Slots(x.pending) && ix !in x.free
  {
    if ix in Slots(x.pending) {
      BusyApart(x, ix);
    }
    if ix in x.free {
      FreeApart(x, ix);
    }
  }

  /** What MoveToFree needs to know. */
  ghost predicate Movable(ts: seq<Timeout>, x: Timers, ix: nat, k: nat) {
    && ix < |ts| && ix !in x.free && (ix in Slots(x.pending) ==> k < |x.pending| && Slots(x.pending)[k] == ix)
    && (forall j <- Slots(x.pending) :: j !in x.free)
  }

  /** It holds of the slot of a pending timer. */
  lemma PlaceOf(ts: seq<Timeout>, first: nat, freeHead: nat, x: Timers, ix: nat, k: nat)
    requires Represents(ts, first, freeHead, x) && k < |x.pending| && x.pending[k].slot == ix
    ensures Movable(ts, x, ix, k) && ix in Slots(x.pending)
  {
    assert x.pending[k] in x.pending && Slots(x.pending)[k] == ix;
    ApartLists(x);
  }

  /** What it has done, if the timer is the one that a removal takes. */
  lemma PendingMoved(ts: seq<Timeout>, ts': seq<Timeout>, first: nat, first': nat, freeHead: nat, freeHead': nat,
                     s: State, h: Handle, call: Call)
    requires h in s.index && call.h == h && (call.Remove? || call.Restart?)
    requires Represents(ts, first, freeHead, s.timers) && Target(s, h) < |s.timers.pending|
    requires var k := Target(s, h);
      Moved(ts, ts', first, first', freeHead', Slots(s.timers.pending), s.timers.free, s.timers.pending[k].slot, k)
    ensures Represents(ts', first', freeHead', RemoveBy(s, h, call).timers)
    ensures RemoveBy(s, h, call).index == s.index[h := NOT_RUNNING]
  {
    var k := Target(s, h);
    RemovingSound(s.timers, k, call);
    ReleaseRepresented(ts, ts', first, first', freeHead, freeHead', s.timers, Removing(s.timers, k, call),
                       s.timers.pending[k].slot, k);
  }

  /** And of a slot that a removal hits. */
  lemma HitPlace(ts: seq<Timeout>, first: nat, freeHead: nat, s: State, h: Handle)
    requires Represents(ts, first, freeHead, s.timers) && h in s.index
    requires 0 < s.index[h] <= |ts| && Hit(ts[s.index[h] - 1], h)
    ensures var ix, k, x := s.index[h] - 1, Target(s, h), s.timers;
      && Movable(ts, x, ix, k)
      && (if HitsTaken(s, h) then ix in x.taken && ix !in Slots(x.pending) else k < |x.pending| && x.pending[k].slot == ix)
  {
    HitMeans(ts, s, h);
    ApartLists(s.timers);
    if HitsTaken(s, h) {
      NotBusy(s.timers, s.index[h] - 1);
    } else {
      PlaceOf(ts, first, freeHead, s.timers, s.index[h] - 1, Target(s, h));
    }
  }

  lemma ApartLists(x: Timers)
    requires Sound(x)
    ensures forall j <- Slots(x.pending) :: j !in x.free
  {
    forall j | j in Slots(x.pending)
      ensures j !in x.free
    {
      BusyApart(x, j);
    }
  }

  lemma CalledOn(calls: seq<Handle>, fired: seq<Timer>, h: Handle, e: Timer)
    requires CalledFor(calls, fired) && e.owner == h
    ensures CalledFor(calls + [h], fired + [e])
  {
  }

  /** The slot is on the busy list at the place k; the free list leads along the busy list from there, and the free slots are lost. */
  ghost predicate Merged(ts: seq<Timeout>, first: nat, freeHead: nat, p: seq<Timer>, free: seq<nat>, ix: nat, k: nat) {
    && k <= |p| && IsList(ts, first, InsertAt(Slots(p), k, ix)) && Walk(ts, freeHead, InsertAt(Slots(p), k, ix)[k..])
    && (forall j <- free :: j !in InsertAt(Slots(p), k, ix))
  }

  /**
   The second section of pf_scheduler_add for a slot that a removal has put on the free list meanwhile: walking the
   free list now leads along the busy list from the new timer on, and every slot that was free is lost.
   */
  method LinkRemoved(t: array<Timeout>, first: nat, freeHead: nat, ix: nat, ghost p: seq<Timer>, ghost free: seq<nat>)
    returns (first': nat, ghost k: nat)
    requires IsList(t[..], first, Slots(p)) && Holds(t[..], p)
    requires ix < t.Length && ix !in Slots(p) && IsList(t[..], freeHead, InsertAt(free, 0, ix))
    requires forall j <- Slots(p) :: j !in free
    modifies t
    ensures Merged(t[..], first', freeHead, p, free, ix, k)
  {
    ghost var f := InsertAt(free, 0, ix);
    assert f[0] == ix && forall i :: 0 <= i < |free| ==> f[i + 1] == free[i];
    first', k := LinkSorted(t, first, ix, p);
    WalkFrom(t[..], first', InsertAt(Slots(p), k, ix), k);
  }

  lemma WalkFrom(ts: seq<Timeout>, head: nat, ixs: seq<nat>, k: nat)
    requires IsList(ts, head, ixs) && k < |ixs|
    ensures Walk(ts, ixs[k], ixs[k..])
  {
    forall i | 0 <= i < |ixs[k..]|
      ensures ixs[k..][i] < |ts|
      ensures ts[ixs[k..][i]].next == if i + 1 < |ixs[k..]| then ixs[k..][i + 1] else |ts|
    {
      assert LinkedAt(ts, ixs, k + i);
    }
  }

  /** A new scheduler, and two handles of the same name. */
  method Start(max: nat, tickInterval: nat, name: string)
    returns (s: Scheduler, h: Handle, g: Handle, ghost s0: State)
    requires 0 < max < 0x1_0000 && 0 < tickInterval < TWO32
    ensures fresh(s) && fresh(s.t) && fresh(h) && fresh(g) && s.t.Length == max && s.tickInterval == tickInterval
    ensures h != g && h.name == g.name && s0 == Started(max, map[h := NOT_RUNNING, g := NOT_RUNNING]) && s.Is(s0)
  {
    h := new Handle(name);
    g := new Handle(name);
    s := new Scheduler(max, tickInterval);
    s0 := Started(max, map[h := NOT_RUNNING, g := NOT_RUNNING]);
  }

  /**
   A removal can hit the slot of an unfinished addition: after a timer has fired whose handle is not reset, when a
   second handle of the same name begins an addition and gets the slot.
   */
  method StaleHandle(max: nat, tickInterval: nat, name: string, delay: nat, clock: nat, delay': nat, clock': nat)
    returns (s: Scheduler, h: Handle, ghost s3: State)
    requires 0 < max < 0x1_0000 && 0 < tickInterval < TWO32
    requires delay < TWO32 && clock < TWO32 && delay' < TWO32 && clock' < TWO32
    ensures fresh(s) && fresh(s.t) && fresh(h) && s.t.Length == max
    ensures s.Is(s3) && h in s3.index && HitsTaken(s3, h) && s3.timers.pending == [] && s3.index[h] == 1
  {
    var g;
    ghost var s0;
    s, h, g, s0 := Start(max, tickInterval, name);
    StaleHandleHits(max, h, g, s0.index, delay, clock, delay', clock', tickInterval);
    s.Do(Call.Add(h, delay, clock), s0);
    ghost var s1 := Apply(s0, Call.Add(h, delay, clock), tickInterval);
    var owner := s.PopFirst(s1);
    s.Do(Call.Take(g), Pop(s1));
    ghost var s2 := Apply(Pop(s1), Call.Take(g), tickInterval);
    s.Do(Call.Fill(g, 0, delay', clock'), s2);
    s3 := Apply(s2, Call.Fill(g, 0, delay', clock'), tickInterval);
  }

  /** If the removal is made and the addition goes on, the slot is on both lists, and all other slots are lost. */
  method SlotsLost(max: nat, tickInterval: nat, name: string, delay: nat, clock: nat, delay': nat, clock': nat)
    returns (s: Scheduler)
    requires 0 < max < 0x1_0000 && 0 < tickInterval < TWO32
    requires delay < TWO32 && clock < TWO32 && delay' < TWO32 && clock' < TWO32
    ensures s.t.Length == max && !s.Valid()
    ensures IsList(s.t[..], s.first, [0]) && Walk(s.t[..], s.freeHead, [0])
  {
    var h;
    ghost var x, k;
    s, h, x := StaleHandle(max, tickInterval, name, delay, clock, delay', clock');
    s.Remove(h, x, Call.Remove(h));
    k := s.LinkOverlap(0, x.timers);
    OverlapIsUnsound(x.timers, 0);
    OnlySlot(x.timers.pending, k);
  }

  lemma OnlySlot(p: seq<Timer>, k: nat)
    requires p == [] && k <= |p|
    ensures InsertAt(Slots(p), k, 0) == [0] && InsertAt(Slots(p), k, 0)[k..] == [0]
  {
    assert Slots(p) == [];
  }

  lemma OverlapIsUnsound(x: Timers, ix: nat)
    requires ix in x.taken
    ensures !Sound(x.(free := InsertAt(x.free, 0, ix)))
  {
    assert InsertAt(x.free, 0, ix)[0] == ix;
  }
}
