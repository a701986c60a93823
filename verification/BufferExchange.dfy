/**
 The exchange of frame buffers between the receive thread and one application thread, in
 src/common/pf_cpm_driver_sw.c, interleaved at every point where the lock is taken or released.

 The receive thread puts a new buffer, then stores the position of its data, then frees the buffer that
 came back. The application thread gets the newest buffer, then, without the lock, adds the stored
 position to it, and then copies from there.
 */
module BufferExchange {
  import opened Options

  /** A received frame: its buffer, and where its data starts (which depends on its VLAN tags). */
  datatype Buf = Buf(id: nat, dataPos: nat)

  datatype RecvAt = RecvIdle | RecvPos(pos: nat, back: Option<Buf>) | RecvFree(back: Option<Buf>)
  datatype AppAt = AppIdle | AppPoint | AppCopy(b: Buf, pos: nat)

  datatype State = State(
    app: Option<Buf>,      // p_buffer_app
    cpm: Option<Buf>,      // p_buffer_cpm
    newBuf: bool,
    bufferPos: nat,
    recv: RecvAt,
    reader: AppAt,
    // history
    freed: set<nat>,       // ids of the buffers that have been freed
    puts: seq<Buf>,        // all buffers put, in order
    seen: nat,             // number of puts before the last get
    flag: bool)            // the new flag given by the last get

  datatype Step =
    | Put(b: Buf)     // put_buf, under the lock
    | StorePos        // p_cpm->buffer_pos = ..., not under the lock
    | FreeBack        // pnal_buf_free of the previous buffer
    | Get             // the locked part of get_buf
    | Point           // &p_buffer_app->payload[buffer_pos], not under the lock
    | Copy            // the copy, under the lock

  /** A put needs a buffer that the stack does not own yet. */
  predicate Can(s: State, st: Step) {
    match st
    case Put(b) => s.recv.RecvIdle? && forall x <- s.puts :: x.id != b.id
    case StorePos => s.recv.RecvPos?
    case FreeBack => s.recv.RecvFree?
    case Get => s.reader.AppIdle?
    case Point => s.reader.AppPoint?
    case Copy => s.reader.AppCopy?
  }

  function Do(s: State, st: Step): State
    requires Can(s, st)
  {
    match st
    case Put(b) => s.(cpm := Some(b), newBuf := true, recv := RecvPos(b.dataPos, s.cpm), puts := s.puts + [b])
    case StorePos => s.(bufferPos := s.recv.pos, recv := RecvFree(s.recv.back))
    case FreeBack => s.(recv := RecvIdle, freed := if s.recv.back.Some? then s.freed + {s.recv.back.value.id} else s.freed)
    case Get =>
      if s.newBuf
      then s.(app := s.cpm, cpm := s.app, newBuf := false, reader := AppPoint, seen := |s.puts|, flag := true)
      else s.(reader := AppPoint, seen := |s.puts|, flag := false)
    case Point => s.(reader := if s.app.Some? then AppCopy(s.app.value, s.bufferPos) else AppIdle)
    case Copy => s.(reader := AppIdle)
  }

  const START := State(None, None, false, 16, RecvIdle, AppIdle, {}, [], 0, false)

  function Play(s: State, steps: seq<Step>): State
    decreases |steps|
  {
    if steps == [] then s
    else Play(if Can(s, steps[0]) then Do(s, steps[0]) else s, steps[1..])
  }

  /** The buffer on its way to be freed. */
  function Back(s: State): Option<Buf> {
    match s.recv
    case RecvIdle => None
    case RecvPos(_, back) => back
    case RecvFree(back) => back
  }

  predicate Distinct(a: Option<Buf>, b: Option<Buf>) {
    a.Some? && b.Some? ==> a.value.id != b.value.id
  }

  /** A buffer that is held somewhere was put and has not been freed. */
  predicate Owned(s: State, x: Option<Buf>) {
    x.Some? ==> x.value in s.puts && x.value.id !in s.freed
  }

  predicate Safe(s: State) {
    && Distinct(s.app, s.cpm) && Distinct(s.app, Back(s)) && Distinct(s.cpm, Back(s))
    && Owned(s, s.app) && Owned(s, s.cpm) && Owned(s, Back(s))
    && (forall i <- s.freed :: exists x <- s.puts :: x.id == i)
    && (s.reader.AppCopy? ==> s.app == Some(s.reader.b))
    && s.seen <= |s.puts|
    && (if s.newBuf then |s.puts| > 0 && s.cpm == Some(s.puts[|s.puts| - 1]) && s.seen < |s.puts| else s.seen == |s.puts|)
    && (s.seen > 0 ==> s.app == Some(s.puts[s.seen - 1]))
    && (s.seen == 0 ==> s.app == None)
  }

  lemma StepIsSafe(s: State, st: Step)
    requires Safe(s) && Can(s, st)
    ensures Safe(Do(s, st))
  {
  }

  lemma {:induction false} PlayIsSafe(s: State, steps: seq<Step>)
    requires Safe(s)
    ensures Safe(Play(s, steps))
    decreases |steps|
  {
    if steps != [] {
      if Can(s, steps[0]) {
        StepIsSafe(s, steps[0]);
        PlayIsSafe(Do(s, steps[0]), steps[1..]);
      } else {
        PlayIsSafe(s, steps[1..]);
      }
    }
  }

  /**
   Over every interleaving: the buffers held are distinct; the buffer being copied is the application's own and is
   neither freed nor on its way to be freed; a get yields the latest put, and says "new" exactly if one came since the get before.
   */
  lemma ExchangeIsSafe(steps: seq<Step>)
    ensures var s := Play(START, steps);
      && Distinct(s.app, s.cpm) && Distinct(s.app, Back(s)) && Distinct(s.cpm, Back(s))
      && (s.reader.AppCopy? ==> s.app == Some(s.reader.b) && s.reader.b.id !in s.freed)
      && (Can(s, Get) ==>
            var s' := Do(s, Get);
            && (s'.flag <==> |s.puts| > s.seen)
            && s'.app == (if s.puts == [] then None else Some(s.puts[|s.puts| - 1])))
  {
    PlayIsSafe(START, steps);
  }

  /** Every buffer that was put is still held, or on its way to be freed, or has been freed. */
  predicate Kept(s: State) {
    forall x <- s.puts :: x.id in s.freed || Some(x) in {s.app, s.cpm, Back(s)}
  }

  /** Between two receptions the stored position is the one of the latest put. */
  predicate Stored(s: State) {
    s.puts != [] ==>
      var last := s.puts[|s.puts| - 1];
      if s.recv.RecvPos? then s.recv.pos == last.dataPos else s.bufferPos == last.dataPos
  }

  lemma StepKeeps(s: State, st: Step)
    requires Safe(s) && Kept(s) && Stored(s) && Can(s, st)
    ensures Kept(Do(s, st)) && Stored(Do(s, st))
  {
  }

  lemma {:induction false} PlayKeeps(s: State, steps: seq<Step>)
    requires Safe(s) && Kept(s) && Stored(s)
    ensures Kept(Play(s, steps)) && Stored(Play(s, steps))
    decreases |steps|
  {
    if steps != [] {
      if Can(s, steps[0]) {
        StepIsSafe(s, steps[0]);
        StepKeeps(s, steps[0]);
        PlayKeeps(Do(s, steps[0]), steps[1..]);
      } else {
        PlayKeeps(s, steps[1..]);
      }
    }
  }

  /** Over every interleaving no buffer leaks, and none is freed that is still held. */
  lemma NothingLeaks(steps: seq<Step>)
    ensures var s := Play(START, steps);
      forall x <- s.puts :: x.id !in s.freed <==> Some(x) in {s.app, s.cpm, Back(s)}
  {
    PlayIsSafe(START, steps);
    PlayKeeps(START, steps);
    var s := Play(START, steps);
    forall x | x in s.puts && Some(x) in {s.app, s.cpm, Back(s)}
      ensures x.id !in s.freed
    {
      assert Owned(s, Some(x));
    }
  }

  /**
   After every interleaving: if the receive thread is between two frames while the application gets and points, the latest buffer
   put is copied, and from where its data starts.
   */
  lemma QuietReadIsWhole(steps: seq<Step>)
    ensures var s := Play(START, steps);
      Can(s, Get) && s.recv.RecvIdle? && s.puts != [] ==>
        var last := s.puts[|s.puts| - 1];
        Do(Do(s, Get), Point).reader == AppCopy(last, last.dataPos)
  {
    PlayIsSafe(START, steps);
    PlayKeeps(START, steps);
  }

  // ---------------------------------------------------------------------------------------------
  // The stored position is not part of the locked exchange

  /** The copy takes bytes from a position that is not where the data of its buffer starts. */
  predicate Torn(s: State) {
    s.reader.AppCopy? && s.reader.pos != s.reader.b.dataPos
  }

  /** All frames untagged, like the position that activation stores. */
  predicate Untagged(s: State) {
    && (forall x <- s.puts :: x.dataPos == START.bufferPos)
    && (s.recv.RecvPos? ==> s.recv.pos == START.bufferPos)
    && s.bufferPos == START.bufferPos
    && (s.reader.AppCopy? ==> s.reader.pos == START.bufferPos)
  }

  lemma {:induction false} UntaggedNeverTears(s: State, steps: seq<Step>)
    requires Safe(s) && Untagged(s) && forall x <- Play(s, steps).puts :: x.dataPos == START.bufferPos
    ensures !Torn(Play(s, steps))
    decreases |steps|
  {
    if steps != [] {
      if Can(s, steps[0]) {
        StepIsSafe(s, steps[0]);
        PutsGrow(Do(s, steps[0]), steps[1..]);
        UntaggedNeverTears(Do(s, steps[0]), steps[1..]);
      } else {
        UntaggedNeverTears(s, steps[1..]);
      }
    }
  }

  lemma {:induction false} PutsGrow(s: State, steps: seq<Step>)
    ensures s.puts <= Play(s, steps).puts
    decreases |steps|
  {
    if steps != [] {
      if Can(s, steps[0]) {
        PutsGrow(Do(s, steps[0]), steps[1..]);
      } else {
        PutsGrow(s, steps[1..]);
      }
    }
  }

  /** Frames received one after the other while the application does nothing. */
  function Receive(ps: seq<Buf>): seq<Step> {
    if ps == [] then [] else [Put(ps[0]), StorePos, FreeBack] + Receive(ps[1..])
  }

  predicate DistinctIds(ps: seq<Buf>) {
    forall i, j :: 0 <= i < j < |ps| ==> ps[i].id != ps[j].id
  }

  lemma PlayOne(s: State, st: Step, rest: seq<Step>)
    requires Can(s, st)
    ensures Play(s, [st] + rest) == Play(Do(s, st), rest)
  {
    assert ([st] + rest)[1..] == rest;
  }

  /** A frame that differs from the stored position is got before its own position is stored. */
  lemma TornAtOnce(s: State, x: Buf)
    requires s.recv.RecvIdle? && s.reader.AppIdle? && s.bufferPos != x.dataPos && DistinctIds(s.puts + [x])
    ensures var r := Play(s, [Put(x), Get, Point]); Torn(r) && r.puts == s.puts + [x]
  {
    assert forall i :: 0 <= i < |s.puts| ==> (s.puts + [x])[i] == s.puts[i];
    assert (s.puts + [x])[|s.puts|] == x;
    var s1 := Do(s, Put(x));
    PlayOne(s, Put(x), [Get, Point]);
    PlayOne(s1, Get, [Point]);
    PlayOne(Do(s1, Get), Point, []);
    assert [Put(x), Get, Point] == [Put(x)] + [Get, Point] && [Get, Point] == [Get] + [Point] && [Point] == [Point] + [];
  }

  /** One frame received while the application does nothing. */
  lemma ReceiveOne(s: State, p: Buf, rest: seq<Step>) returns (s': State)
    requires s.recv.RecvIdle? && s.reader.AppIdle? && DistinctIds(s.puts + [p])
    ensures Play(s, [Put(p), StorePos, FreeBack] + rest) == Play(s', rest)
    ensures s'.recv.RecvIdle? && s'.reader.AppIdle? && s'.bufferPos == p.dataPos && s'.puts == s.puts + [p]
  {
    assert forall i :: 0 <= i < |s.puts| ==> (s.puts + [p])[i] == s.puts[i];
    assert (s.puts + [p])[|s.puts|] == p;
    var s1 := Do(s, Put(p));
    s' := Do(Do(s1, StorePos), FreeBack);
    PlayOne(s, Put(p), [StorePos, FreeBack] + rest);
    PlayOne(s1, StorePos, [FreeBack] + rest);
    PlayOne(Do(s1, StorePos), FreeBack, rest);
    assert [Put(p), StorePos, FreeBack] + rest == [Put(p)] + ([StorePos, FreeBack] + rest);
    assert [StorePos, FreeBack] + rest == [StorePos] + ([FreeBack] + rest);
  }

  lemma {:induction false} TaggedTears(s: State, ps: seq<Buf>, x: Buf)
    requires s.recv.RecvIdle? && s.reader.AppIdle? && s.bufferPos == START.bufferPos
    requires forall p <- ps :: p.dataPos == START.bufferPos
    requires x.dataPos != START.bufferPos && DistinctIds(s.puts + ps + [x])
    ensures var r := Play(s, Receive(ps) + [Put(x), Get, Point]); Torn(r) && r.puts == s.puts + ps + [x]
    decreases |ps|
  {
    var tail := [Put(x), Get, Point];
    var all := s.puts + ps + [x];
    if ps == [] {
      assert all == s.puts + [x] && Receive(ps) + tail == tail;
      TornAtOnce(s, x);
    } else {
      Rearranged(s.puts, ps, x, tail);
      var s1 := ReceiveOne(s, ps[0], Receive(ps[1..]) + tail);
      TaggedTears(s1, ps[1..], x);
    }
  }

  lemma Rearranged(puts: seq<Buf>, ps: seq<Buf>, x: Buf, tail: seq<Step>)
    requires ps != []
    ensures puts + [ps[0]] + ps[1..] + [x] == puts + ps + [x]
    ensures Receive(ps) + tail == [Put(ps[0]), StorePos, FreeBack] + (Receive(ps[1..]) + tail)
    ensures DistinctIds(puts + ps + [x]) ==> DistinctIds(puts + [ps[0]])
  {
    var all := puts + ps + [x];
    assert forall i :: 0 <= i <= |puts| ==> (puts + [ps[0]])[i] == all[i];
  }

  /**
   For frames received in a given order, some interleaving with the application reads at a wrong position
   if and only if one of the frames carries a VLAN tag.
   */
  lemma TearsExactlyIfTagged(ps: seq<Buf>)
    requires DistinctIds(ps)
    ensures (exists steps :: Torn(Play(START, steps)) && Play(START, steps).puts <= ps)
       <==> (exists p <- ps :: p.dataPos != START.bufferPos)
  {
    if exists p <- ps :: p.dataPos != START.bufferPos {
      var k := FirstTagged(ps);
      assert ([] + ps[..k] + [ps[k]]) == ps[..k + 1];
      TaggedTears(START, ps[..k], ps[k]);
      assert Torn(Play(START, Receive(ps[..k]) + [Put(ps[k]), Get, Point]));
    } else {
      forall steps | Play(START, steps).puts <= ps
        ensures !Torn(Play(START, steps))
      {
        UntaggedNeverTears(START, steps);
      }
    }
  }

  lemma {:induction false} FirstTagged(ps: seq<Buf>) returns (k: nat)
    requires exists p <- ps :: p.dataPos != START.bufferPos
    ensures k < |ps| && ps[k].dataPos != START.bufferPos && forall p <- ps[..k] :: p.dataPos == START.bufferPos
  {
    if ps[0].dataPos != START.bufferPos {
      k := 0;
    } else {
      var p :| p in ps && p.dataPos != START.bufferPos;
      assert ps == [ps[0]] + ps[1..];
      k := FirstTagged(ps[1..]);
      k := k + 1;
      assert ps[..k] == [ps[0]] + ps[1..][..k - 1];
    }
  }
}
