/**
 How the array of src/common/pf_scheduler.c stands for the timers: two lists of slots, and the contents of each slot.
 Each lemma is one change of the array, as the code makes it.
 */
module TimerArray {
  import opened WrapTime
  import opened PendingTimers
  import opened SlotLists
  import opened TimerCalls

  /** A busy slot holds what was added. */
  ghost predicate Holds(ts: seq<Timeout>, p: seq<Timer>) {
    forall e <- p :: e.slot < |ts| && var x := ts[e.slot];
      x.inUse && x.when == e.when && x.arg == e.owner && x.name == e.owner.name
  }

  ghost predicate AllUnused(ts: seq<Timeout>, free: seq<nat>) {
    forall j <- free :: j < |ts| && !ts[j].inUse
  }

  predicate SlotHas(x: Timeout, c: Slot) {
    match c
    case Empty => !x.inUse
    case Filled(h, when) => x.inUse && x.when == when && x.arg == h && x.name == h.name
  }

  ghost predicate HoldsTaken(ts: seq<Timeout>, taken: map<nat, Slot>) {
    forall j <- taken :: j < |ts| && SlotHas(ts[j], taken[j])
  }

  /** Each slot is busy, free, or taken by an unfinished addition. */
  ghost predicate Covers(p: seq<Timer>, free: seq<nat>, taken: map<nat, Slot>, n: nat) {
    forall j :: 0 <= j < n ==> j in Slots(p) || j in free || j in taken
  }

  ghost predicate Contents(ts: seq<Timeout>, x: Timers) {
    && Holds(ts, x.pending) && AllUnused(ts, x.free) && HoldsTaken(ts, x.taken)
    && Covers(x.pending, x.free, x.taken, |ts|)
  }

  ghost predicate Represents(ts: seq<Timeout>, first: nat, freeHead: nat, x: Timers) {
    && IsList(ts, first, Slots(x.pending)) && IsList(ts, freeHead, x.free)
    && Contents(ts, x) && Sound(x)
  }

  lemma InSlots(p: seq<Timer>, j: nat) returns (i: nat)
    requires j in Slots(p)
    ensures i < |p| && p[i].slot == j && p[i] in p
  {
    i :| 0 <= i < |p| && Slots(p)[i] == j;
  }

  lemma SlotOf(p: seq<Timer>, e: Timer)
    requires e in p
    ensures e.slot in Slots(p)
  {
    var i :| 0 <= i < |p| && p[i] == e;
    assert Slots(p)[i] == e.slot;
  }

  /** A busy slot is neither free nor taken. */
  lemma BusyApart(x: Timers, j: nat)
    requires Sound(x) && j in Slots(x.pending)
    ensures j !in x.free && j !in x.taken
  {
    var i := InSlots(x.pending, j);
  }

  lemma FreeApart(x: Timers, j: nat)
    requires Sound(x) && j in x.free
    ensures j !in Slots(x.pending) && j !in x.taken
  {
    var i :| 0 <= i < |x.free| && x.free[i] == j;
    if j in Slots(x.pending) {
      BusyApart(x, j);
    }
  }

  /** After the array was initialized. */
  lemma StartRepresented(ts: seq<Timeout>, freeHead: nat, free: seq<nat>)
    requires 0 < |ts| < NOT_RUNNING && IsList(ts, freeHead, free) && |free| == |ts|
    requires forall j :: 0 <= j < |ts| ==> free[j] == j && !ts[j].inUse
    ensures Represents(ts, |ts|, freeHead, Timers([], free, map[], 0, []))
  {
    var x := Timers([], free, map[], 0, []);
    assert Slots(x.pending) == [];
    forall j | 0 <= j < |ts|
      ensures j in free
    {
      assert free[j] == j;
    }
  }

  /** Where only links change, the contents are as before. */
  lemma ContentsSame(ts: seq<Timeout>, ts': seq<Timeout>, x: Timers)
    requires Contents(ts, x) && |ts'| == |ts| && forall j :: 0 <= j < |ts| ==> SameBody(ts'[j], ts[j])
    ensures Contents(ts', x)
  {
  }

  lemma TakeContents(ts: seq<Timeout>, x: Timers)
    requires Contents(ts, x) && x.free != []
    ensures Contents(ts, Taking(x))
  {
    assert x.free[0] in x.free && forall j <- x.free :: j == x.free[0] || j in x.free[1..];
  }

  /** The first free slot has left its list. */
  lemma TakeRepresented(ts: seq<Timeout>, ts': seq<Timeout>, first: nat, freeHead: nat, freeHead': nat, x: Timers)
    requires Represents(ts, first, freeHead, x) && x.free != [] && |ts'| == |ts|
    requires IsList(ts', freeHead', RemoveAt(x.free, 0))
    requires forall j :: 0 <= j < |ts| ==> SameBody(ts'[j], ts[j])
    requires forall j :: 0 <= j < |ts| && j !in x.free ==> ts'[j] == ts[j]
    ensures Represents(ts', first, freeHead', Taking(x))
  {
    TakingSound(x, []);
    ContentsSame(ts, ts', x);
    TakeContents(ts', x);
    assert RemoveAt(x.free, 0) == x.free[1..];
    OthersFrame(ts, ts', first, Slots(x.pending), x.free, x);
  }

  /** The busy list is not touched by changes to the links of free slots. */
  lemma OthersFrame(ts: seq<Timeout>, ts': seq<Timeout>, first: nat, busy: seq<nat>, free: seq<nat>, x: Timers)
    requires Sound(x) && busy == Slots(x.pending) && free == x.free && IsList(ts, first, busy) && |ts'| == |ts|
    requires forall j :: 0 <= j < |ts| && j !in free ==> ts'[j] == ts[j]
    ensures IsList(ts', first, busy)
  {
    forall j | 0 <= j < |ts| && j in busy
      ensures ts'[j] == ts[j]
    {
      BusyApart(x, j);
    }
    ListFrame(ts, ts', first, busy);
  }

  lemma FillContents(ts: seq<Timeout>, ts': seq<Timeout>, x: Timers, ix: nat, h: Handle, when: nat)
    requires Contents(ts, x) && Sound(x) && ix in x.taken && |ts'| == |ts|
    requires SlotHas(ts'[ix], Filled(h, when)) && forall j :: 0 <= j < |ts| && j != ix ==> ts'[j] == ts[j]
    ensures Contents(ts', Filling(x, ix, h, when))
  {
    forall e | e in x.pending
      ensures e.slot != ix
    {
      SlotOf(x.pending, e);
      BusyApart(x, e.slot);
    }
    forall j | j in x.free
      ensures j != ix
    {
      FreeApart(x, j);
    }
  }

  /** A taken slot has been filled. */
  lemma FillRepresented(ts: seq<Timeout>, ts': seq<Timeout>, first: nat, freeHead: nat, x: Timers, ix: nat, h: Handle, when: nat)
    requires Represents(ts, first, freeHead, x) && ix in x.taken && |ts'| == |ts|
    requires SlotHas(ts'[ix], Filled(h, when)) && ts'[ix].next == ts[ix].next && ts'[ix].prev == ts[ix].prev
    requires forall j :: 0 <= j < |ts| && j != ix ==> ts'[j] == ts[j]
    ensures Represents(ts', first, freeHead, Filling(x, ix, h, when))
  {
    FillingSound(x, ix, h, when, []);
    FillContents(ts, ts', x, ix, h, when);
    ListFrame(ts, ts', first, Slots(x.pending));
    ListFrame(ts, ts', freeHead, x.free);
  }

  lemma SlotsOfInsert(p: seq<Timer>, e: Timer, k: nat)
    requires k <= |p| && Insert(p, e) == p[..k] + [e] + p[k..]
    ensures Slots(Insert(p, e)) == InsertAt(Slots(p), k, e.slot)
  {
  }

  lemma LinkContents(ts: seq<Timeout>, x: Timers, ix: nat, h: Handle)
    requires Contents(ts, x) && IsFilled(x, ix, h)
    ensures Contents(ts, Linking(x, ix, h))
  {
    var e := Linked(x, ix, h);
    InsertMembers(x.pending, e);
    var q := Insert(x.pending, e);
    SlotOf(q, e);
    forall j | j in Slots(x.pending)
      ensures j in Slots(q)
    {
      var i := InSlots(x.pending, j);
      SlotOf(q, x.pending[i]);
    }
  }

  /** A filled slot has been linked into the busy list, at its place. */
  lemma LinkRepresented(ts: seq<Timeout>, ts': seq<Timeout>, first: nat, first': nat, freeHead: nat, x: Timers,
                        ix: nat, h: Handle, k: nat)
    requires Represents(ts, first, freeHead, x) && IsFilled(x, ix, h) && |ts'| == |ts| && k <= |x.pending|
    requires forall j :: 0 <= j < k ==> SDiff(x.taken[ix].when, x.pending[j].when) > 0
    requires k < |x.pending| ==> SDiff(x.taken[ix].when, x.pending[k].when) <= 0
    requires IsList(ts', first', InsertAt(Slots(x.pending), k, ix))
    requires forall j :: 0 <= j < |ts| ==> SameBody(ts'[j], ts[j])
    requires forall j :: 0 <= j < |ts| && j !in Slots(x.pending) && j != ix ==> ts'[j] == ts[j]
    ensures Represents(ts', first', freeHead, Linking(x, ix, h))
  {
    LinkingSound(x, ix, h, []);
    ContentsSame(ts, ts', x);
    LinkContents(ts', x, ix, h);
    InsertSplits(x.pending, Linked(x, ix, h), k);
    SlotsOfInsert(x.pending, Linked(x, ix, h), k);
    FreeFrame(ts, ts', freeHead, x, ix);
  }

  lemma FreeFrame(ts: seq<Timeout>, ts': seq<Timeout>, freeHead: nat, x: Timers, ix: nat)
    requires Sound(x) && ix in x.taken && IsList(ts, freeHead, x.free) && |ts'| == |ts|
    requires forall j :: 0 <= j < |ts| && j !in Slots(x.pending) && j != ix ==> ts'[j] == ts[j]
    ensures IsList(ts', freeHead, x.free)
  {
    forall j | 0 <= j < |ts| && j in x.free
      ensures ts'[j] == ts[j]
    {
      FreeApart(x, j);
    }
    ListFrame(ts, ts', freeHead, x.free);
  }

  /** x' is x with the k-th pending timer's slot on the free list. */
  ghost predicate Released(x: Timers, x': Timers, k: nat)
    requires k < |x.pending|
  {
    && x'.pending == RemoveAt(x.pending, k) && x'.free == InsertAt(x.free, 0, x.pending[k].slot)
    && x'.taken == x.taken
  }

  lemma SlotsOfRemoveAt(p: seq<Timer>, k: nat)
    requires k < |p|
    ensures Slots(RemoveAt(p, k)) == RemoveAt(Slots(p), k)
    ensures forall j <- Slots(p) :: j == p[k].slot || j in Slots(RemoveAt(p, k))
  {
    var r := Slots(RemoveAt(p, k));
    forall j | j in Slots(p) && j != p[k].slot
      ensures j in r
    {
      var i := InSlots(p, j);
      assert r[if i < k then i else i - 1] == j;
    }
  }

  lemma ReleaseHolds(ts: seq<Timeout>, ts': seq<Timeout>, p: seq<Timer>, k: nat)
    requires Holds(ts, p) && Distinct(p) && k < |p| && |ts'| == |ts|
    requires forall j :: 0 <= j < |ts| && j != p[k].slot ==> SameBody(ts'[j], ts[j])
    ensures Holds(ts', RemoveAt(p, k))
  {
    InRemoveAt(p, k);
    forall e | e in RemoveAt(p, k)
      ensures e in p && e.slot != p[k].slot
    {
      var i :| 0 <= i < |RemoveAt(p, k)| && RemoveAt(p, k)[i] == e;
    }
  }

  lemma ReleaseContents(ts: seq<Timeout>, ts': seq<Timeout>, x: Timers, x': Timers, k: nat)
    requires Contents(ts, x) && Sound(x) && k < |x.pending| && Released(x, x', k) && |ts'| == |ts|
    requires x.pending[k].slot < |ts| && !ts'[x.pending[k].slot].inUse
    requires forall j :: 0 <= j < |ts| && j != x.pending[k].slot ==> SameBody(ts'[j], ts[j])
    ensures Contents(ts', x')
  {
    ReleaseHolds(ts, ts', x.pending, k);
    SlotsOfRemoveAt(x.pending, k);
    SlotOf(x.pending, x.pending[k]);
    BusyApart(x, x.pending[k].slot);
    FreeMembers(x.free, x.pending[k].slot);
  }

  lemma FreeMembers(free: seq<nat>, ix: nat)
    ensures forall j :: j in InsertAt(free, 0, ix) <==> j == ix || j in free
  {
    assert InsertAt(free, 0, ix) == [ix] + free;
  }

  /** What the code that tick and remove share does: the slot leaves the busy list, if it is on it, and is free. */
  ghost predicate Moved(ts: seq<Timeout>, ts': seq<Timeout>, first: nat, first': nat, freeHead': nat, busy: seq<nat>,
                        free: seq<nat>, ix: nat, k: nat)
    requires ix in busy ==> k < |busy|
  {
    && |ts'| == |ts| && ix < |ts| && freeHead' == ix && !ts'[ix].inUse
    && (if ix in busy then IsList(ts', first', RemoveAt(busy, k)) else first' == first && IsList(ts', first', busy))
    && IsList(ts', freeHead', InsertAt(free, 0, ix))
    && (forall j :: 0 <= j < |ts| && j != ix ==> SameBody(ts'[j], ts[j]))
  }

  /** The slot of a pending timer has been moved. */
  lemma ReleaseRepresented(ts: seq<Timeout>, ts': seq<Timeout>, first: nat, first': nat, freeHead: nat, freeHead': nat,
                           x: Timers, x': Timers, ix: nat, k: nat)
    requires Represents(ts, first, freeHead, x) && k < |x.pending| && x.pending[k].slot == ix
    requires Moved(ts, ts', first, first', freeHead', Slots(x.pending), x.free, ix, k)
    requires Released(x, x', k) && Sound(x')
    ensures Represents(ts', first', freeHead', x')
  {
    SlotOf(x.pending, x.pending[k]);
    ReleaseContents(ts, ts', x, x', k);
    SlotsOfRemoveAt(x.pending, k);
  }

  /** The slot is on the free list, and still belongs to an unfinished addition; the lists are otherwise as x says. */
  ghost predicate Overlap(ts: seq<Timeout>, first: nat, freeHead: nat, x: Timers, ix: nat) {
    && ix in x.taken && ix < |ts| && freeHead == ix
    && IsList(ts, first, Slots(x.pending)) && IsList(ts, freeHead, InsertAt(x.free, 0, ix)) && Holds(ts, x.pending)
  }

  /** The slot of an unfinished addition has been moved. */
  lemma TakenMoved(ts: seq<Timeout>, ts': seq<Timeout>, first: nat, first': nat, freeHead: nat, freeHead': nat, x: Timers,
                   ix: nat, k: nat)
    requires Represents(ts, first, freeHead, x) && ix in x.taken && ix !in Slots(x.pending)
    requires Moved(ts, ts', first, first', freeHead', Slots(x.pending), x.free, ix, k)
    ensures Overlap(ts', first', freeHead', x, ix) && first' == first && !Sound(x.(free := InsertAt(x.free, 0, ix)))
  {
    forall e | e in x.pending
      ensures e.slot != ix
    {
      SlotOf(x.pending, e);
    }
    assert InsertAt(x.free, 0, ix)[0] == ix;
  }

  lemma FindsSlot(p: seq<Timer>, ix: nat)
    ensures Find(p, ix) < |p| <==> ix in Slots(p)
  {
    if Find(p, ix) < |p| {
      assert Slots(p)[Find(p, ix)] == ix;
    } else if ix in Slots(p) {
      var i := InSlots(p, ix);
      assert false;
    }
  }

  /** What a slot says about the timer or the addition that it belongs to. */
  predicate Tells(x: Timers, ix: nat, t: Timeout) {
    var k := Find(x.pending, ix);
    && (ix in x.taken ==> k == |x.pending| && SlotHas(t, x.taken[ix]))
    && (ix !in x.taken ==> (t.inUse <==> k < |x.pending|))
    && (k < |x.pending| ==> t.name == x.pending[k].owner.name)
  }

  lemma SlotTells(ts: seq<Timeout>, x: Timers, ix: nat)
    requires Contents(ts, x) && Sound(x) && ix < |ts|
    ensures Tells(x, ix, ts[ix])
  {
    FindsSlot(x.pending, ix);
    if ix in Slots(x.pending) {
      BusyApart(x, ix);
      assert x.pending[Find(x.pending, ix)] in x.pending;
    }
  }

  /** A slot number that is out of range is none of a timer. */
  lemma NoSlot(ts: seq<Timeout>, x: Timers, ix: nat)
    requires Contents(ts, x) && ix >= |ts|
    ensures Find(x.pending, ix) == |x.pending| && ix !in x.taken
  {
    FindsSlot(x.pending, ix);
    if ix in Slots(x.pending) {
      var i := InSlots(x.pending, ix);
    }
  }

  predicate Hit(t: Timeout, h: Handle) {
    t.name == h.name && t.inUse
  }

  lemma TellsHit(s: State, h: Handle, t: Timeout)
    requires h in s.index && s.index[h] > 0 && Tells(s.timers, s.index[h] - 1, t)
    ensures Hit(t, h) <==> Target(s, h) < |s.timers.pending| || HitsTaken(s, h)
    ensures !(Target(s, h) < |s.timers.pending| && HitsTaken(s, h))
  {
  }

  /** A removal looks at the slot that the handle refers to, and at its name there. */
  lemma HitMeans(ts: seq<Timeout>, s: State, h: Handle)
    requires Contents(ts, s.timers) && Sound(s.timers) && h in s.index
    ensures (0 < s.index[h] <= |ts| && Hit(ts[s.index[h] - 1], h)) <==>
            Target(s, h) < |s.timers.pending| || HitsTaken(s, h)
    ensures !(Target(s, h) < |s.timers.pending| && HitsTaken(s, h))
  {
    if 0 < s.index[h] <= |ts| {
      SlotTells(ts, s.timers, s.index[h] - 1);
      TellsHit(s, h, ts[s.index[h] - 1]);
    } else if s.index[h] > 0 {
      NoSlot(ts, s.timers, s.index[h] - 1);
    }
  }
}
