/**
 The alarm instance of one AR as pf_alarm.c keeps it: two priorities updated in place, the queues of
 received frames and of alarms to send, and the frame buffers. Index 0 is low and 1 is high priority.

 The methods are proved against the functions of AlarmMachine, and against the accounting of
 buffers: every buffer is freed once, by whoever owns it, and at rest the only buffers owned here
 are the saved frames and the queued received frames.
 */
module AlarmAr {
  import opened Options
  import opened AlarmMachine
  import opened RingQueue

  /** A received frame in its buffer. */
  datatype Msg = Msg(buf: nat, frame: Frame)

  function SlotBufs(s: seq<Option<Msg>>): set<nat> {
    set i | 0 <= i < |s| && s[i].Some? :: s[i].value.buf
  }

  function SavedBufs(s: seq<Option<nat>>): set<nat> {
    set i | 0 <= i < |s| && s[i].Some? :: s[i].value
  }

  ghost predicate DistinctSlots(s: seq<Option<Msg>>) {
    forall i, j :: 0 <= i < j < |s| && s[i].Some? && s[j].Some? ==> s[i].value.buf != s[j].value.buf
  }

  lemma SlotCleared(s: seq<Option<Msg>>, k: nat)
    requires k < |s| && s[k].Some? && DistinctSlots(s)
    ensures s[k].value.buf in SlotBufs(s)
    ensures SlotBufs(s[k := None]) == SlotBufs(s) - {s[k].value.buf} && DistinctSlots(s[k := None])
  {
    var s' := s[k := None];
    forall b | b in SlotBufs(s) && b != s[k].value.buf
      ensures b in SlotBufs(s')
    {
      var i :| 0 <= i < |s| && s[i].Some? && s[i].value.buf == b;
      assert s'[i].Some?;
    }
  }

  lemma SlotFilled(s: seq<Option<Msg>>, k: nat, x: Msg)
    requires k < |s| && s[k].None? && DistinctSlots(s) && x.buf !in SlotBufs(s)
    ensures SlotBufs(s[k := Some(x)]) == SlotBufs(s) + {x.buf} && DistinctSlots(s[k := Some(x)])
  {
    var s' := s[k := Some(x)];
    assert s'[k].Some?;
    forall b | b in SlotBufs(s)
      ensures b in SlotBufs(s')
    {
      var i :| 0 <= i < |s| && s[i].Some? && s[i].value.buf == b;
      assert s'[i].Some?;
    }
  }

  /** An empty ring holds no buffer in any slot. */
  lemma EmptyRing(s: seq<Option<Msg>>, read: nat)
    requires LiveWindow(s, read, 0)
    ensures SlotBufs(s) == {} && DistinctSlots(s)
  {
    forall k | 0 <= k < |s|
      ensures s[k].None?
    {
      assert At(read, if k >= read then k - read else k + |s| - read, |s|) == k;
    }
  }

  /** Clearing the slot at the read index takes one buffer out of the slots. */
  lemma FetchedSlot(s: seq<Option<Msg>>, read: nat, count: nat)
    requires LiveWindow(s, read, count) && DistinctSlots(s)
    ensures count > 0 ==> s[read].Some? && s[read].value.buf in SlotBufs(s)
    ensures count > 0 ==> SlotBufs(s[read := None]) == SlotBufs(s) - {s[read].value.buf} && DistinctSlots(s[read := None])
  {
    if count > 0 {
      ClearRemoves(s, read, count);
      SlotCleared(s, read);
    }
  }

  /** Every live buffer has exactly one owner. */
  ghost predicate OneOwner(live: set<nat>, foreign: set<nat>, saved: set<nat>, low: set<nat>, high: set<nat>, hand: set<nat>) {
    foreign !! saved !! low !! high !! hand && live == foreign + saved + low + high + hand
  }

  lemma TakenInHand(live: set<nat>, foreign: set<nat>, saved: set<nat>, low: set<nat>, high: set<nat>, b: nat)
    requires OneOwner(live, foreign, saved, low, high, {}) && (b in low || b in high)
    ensures b in live
    ensures b in low ==> OneOwner(live, foreign, saved, low - {b}, high, {b})
    ensures b in high ==> OneOwner(live, foreign, saved, low, high - {b}, {b})
  {
  }

  lemma FreedFromHand(live: set<nat>, foreign: set<nat>, saved: set<nat>, low: set<nat>, high: set<nat>, b: nat)
    requires OneOwner(live, foreign, saved, low, high, {b})
    ensures b in live && OneOwner(live - {b}, foreign, saved, low, high, {})
  {
  }

  /** The instance when it has taken a frame for the expected one. */
  function Counted(m: Apmx, f: Frame): Apmx {
    var m1 := AckInd(m, f).m;
    m1.(expO := m1.exp, exp := NextSeq(m1.exp))
  }

  /** The timeout gives up. */
  predicate Exhausted(m: Apmx) {
    m.apms == ApmsWTack && m.saved.Some? && m.resend == 0
  }

  /** What a timeout that does not give up makes of the instance, after the timer has been taken away. */
  function AfterTimeout(m: Apmx, env: Env): Apmx
    requires !Exhausted(m)
  {
    if m.apms != ApmsWTack then m.(saved := None)
    else if m.saved.None? then m
    else m.(resend := m.resend - 1, timers := if env.timer then m.timers + 1 else m.timers, handle := env.timer)
  }

  function AgainSent(m: Apmx, env: Env): seq<Frame> {
    if m.apms == ApmsWTack && m.saved.Some? && env.sent then [m.saved.value] else []
  }

  lemma TimeoutIs(m: Apmx, env: Env)
    requires m.timers > 0
    ensures var m1 := m.(timers := m.timers - 1, handle := false);
      if Exhausted(m1) then Timeout(m, env) == ErrorInd(m1.(apms := ApmsOpen), env)
      else Timeout(m, env) == Out(AfterTimeout(m1, env), AgainSent(m1, env), [], true)
  {
  }

  class AlarmAr {
    var apmx: seq<Apmx>               // p_ar->apmx[] and p_ar->alpmx[]
    var rta: seq<Option<nat>>         // the buffers of the saved frames, p_rta
    const lowQ: RingQueue<Msg>        // alarm_receive_q
    const highQ: RingQueue<Msg>
    var wire: seq<seq<Frame>>         // frames put on the wire, per priority
    var ups: seq<seq<Up>>             // indications given, per priority
    var nextBuf: nat
    ghost var live: set<nat>          // buffers allocated and not freed
    ghost var foreign: set<nat>       // those of them that belong to other parts of the stack

    /** Sizes, and queues that are closed with the machine that reads them. */
    ghost predicate Shaped()
      reads this, lowQ, lowQ.slots, highQ, highQ.slots
    {
      && |apmx| == |rta| == |wire| == |ups| == 2 && !apmx[0].high && apmx[1].high
      && lowQ != highQ && lowQ.slots != highQ.slots && lowQ.Valid() && highQ.Valid()
      && (if apmx[0].apmr == ApmrClosed then lowQ.count == 0 && !lowQ.available else lowQ.available)
      && (if apmx[1].apmr == ApmrClosed then highQ.count == 0 && !highQ.available else highQ.available)
      && (forall ix :: 0 <= ix < 2 ==> (apmx[ix].saved.Some? <==> rta[ix].Some?))
    }

    /** Every live buffer has one owner: elsewhere, a saved frame, a queue slot, or the hand of the running function. */
    ghost predicate Balanced(hand: set<nat>)
      reads this, lowQ, lowQ.slots, highQ, highQ.slots
    {
      && Shaped()
      && DistinctSlots(lowQ.slots[..]) && DistinctSlots(highQ.slots[..])
      && (rta[0].Some? && rta[1].Some? ==> rta[0] != rta[1])
      && OneOwner(live, foreign, SavedBufs(rta), SlotBufs(lowQ.slots[..]), SlotBufs(highQ.slots[..]), hand)
      && (forall b <- live :: b < nextBuf)
    }

    /** pf_alarm_activate on an idle AR, in a stack where the buffers `others` are in use. */
    constructor (retries: nat, queueSize: nat, firstBuf: nat, ghost others: set<nat>)
      requires queueSize > 0 && forall b <- others :: b < firstBuf
      ensures Balanced({}) && live == foreign == others
      ensures apmx == [Activated(false, retries), Activated(true, retries)]
      ensures wire == [[], []] && ups == [[], []] && fresh(lowQ) && fresh(lowQ.slots) && fresh(highQ) && fresh(highQ.slots)
    {
      lowQ := new RingQueue<Msg>(queueSize);
      highQ := new RingQueue<Msg>(queueSize);
      apmx := [Activated(false, retries), Activated(true, retries)];
      rta, wire, ups := [None, None], [[], []], [[], []];
      nextBuf, live, foreign := firstBuf, others, others;
      new;
      EmptyRing(lowQ.slots[..], lowQ.readIndex);
      EmptyRing(highQ.slots[..], highQ.readIndex);
    }

    method Alloc(ghost hand: set<nat>) returns (b: nat)
      requires Balanced(hand)
      modifies `live, `nextBuf
      ensures b !in old(live) && b !in hand && live == old(live) + {b}
      ensures Balanced(hand + {b})
    {
      b := nextBuf;
      nextBuf := nextBuf + 1;
      live := live + {b};
    }

    /** pnal_buf_free: only a live buffer may be freed, so none is freed twice. */
    method Free(b: nat)
      requires b in live
      modifies `live
      ensures live == old(live) - {b}
    {
      live := live - {b};
    }

    /** Fields of one priority change, but neither its saved frame nor the state of APMR's queue. */
    method Put(ix: nat, m: Apmx, ghost hand: set<nat>)
      requires Balanced(hand) && ix < 2
      requires m.saved == apmx[ix].saved && m.high == apmx[ix].high
      requires m.apmr == ApmrClosed <==> apmx[ix].apmr == ApmrClosed
      modifies `apmx
      ensures Balanced(hand) && apmx == old(apmx)[ix := m]
    {
      apmx := apmx[ix := m];
    }

    /** pf_alarm_apms_a_data_req: build a frame in a new buffer, send it, and save or free the buffer. */
    method Transmit(ix: nat, f: Frame, env: Env, ghost hand: set<nat>) returns (ok: bool)
      requires Balanced(hand) && ix < 2
      modifies this
      ensures Balanced(hand) && unchanged(`ups, `foreign)
      ensures ok <==> env.alloc && env.sent
      ensures wire == Logged(old(wire), ix, if ok then [f] else [])
      ensures apmx == old(apmx)[ix := old(apmx[ix]).(saved :=
                        if f.tack && env.alloc && old(apmx[ix]).saved.None? then Some(f) else old(apmx[ix]).saved)]
    {
      ok := false;
      assert wire[ix] + [] == wire[ix];
      if env.alloc {
        var b := Alloc(hand);
        if env.sent {
          wire := Logged(wire, ix, [f]);
          ok := true;
        }
        if f.tack && rta[ix].None? {
          SaveFrame(ix, f, b, hand);
        } else {
          Free(b);
        }
      }
    }

    /** A buffer in hand becomes that of the saved frame. */
    method SaveFrame(ix: nat, f: Frame, b: nat, ghost hand: set<nat>)
      requires Balanced(hand + {b}) && b !in hand && ix < 2 && rta[ix].None?
      modifies `rta, `apmx
      ensures Balanced(hand) && apmx == old(apmx)[ix := old(apmx[ix]).(saved := Some(f))]
    {
      SavedAdded(rta, ix, b);
      rta := rta[ix := Some(b)];
      apmx := apmx[ix := apmx[ix].(saved := Some(f))];
    }

    /** The saved frame of a priority is given up. */
    method DropSaved(ix: nat, ghost hand: set<nat>)
      requires Balanced(hand) && ix < 2
      modifies this
      ensures Balanced(hand) && unchanged(`wire, `ups, `foreign)
      ensures apmx == old(apmx)[ix := old(apmx[ix]).(saved := None)]
    {
      if rta[ix].Some? {
        var b := rta[ix].value;
        SavedDropped(rta, ix);
        rta := rta[ix := None];
        apmx := apmx[ix := apmx[ix].(saved := None)];
        Free(b);
      }
    }

    /** The loop of pf_alarm_receive_queue_reset: the buffers still in the slots are freed. */
    method FreeSlots(slots: array<Option<Msg>>)
      requires DistinctSlots(slots[..]) && SlotBufs(slots[..]) <= live
      modifies `live, slots
      ensures forall i :: 0 <= i < slots.Length ==> slots[i].None?
      ensures live == old(live) - SlotBufs(old(slots[..]))
    {
      var ix := 0;
      while ix < slots.Length
        invariant 0 <= ix <= slots.Length
        invariant forall i :: 0 <= i < ix ==> slots[i].None?
        invariant DistinctSlots(slots[..]) && SlotBufs(slots[..]) <= SlotBufs(old(slots[..]))
        invariant live == old(live) - SlotBufs(old(slots[..])) + SlotBufs(slots[..])
      {
        if slots[ix].Some? {
          SlotCleared(slots[..], ix);
          ghost var s := slots[..];
          Free(slots[ix].value.buf);
          slots[ix] := None;
          assert slots[..] == s[ix := None];
        }
        ix := ix + 1;
      }
      assert SlotBufs(slots[..]) == {};
    }

    /** pf_alarm_receive_queue_reset and the destruction of the queue's mutex. */
    method CloseQueue(ix: nat, ghost hand: set<nat>)
      requires Balanced(hand) && ix < 2
      modifies `live, `apmx, if ix == 0 then lowQ else highQ, if ix == 0 then lowQ.slots else highQ.slots
      ensures Balanced(hand) && apmx == old(apmx)[ix := old(apmx[ix]).(apmr := ApmrClosed)]
    {
      EmptyQueue(if ix == 0 then lowQ else highQ);
      apmx := apmx[ix := apmx[ix].(apmr := ApmrClosed)];
    }

    method EmptyQueue(q: RingQueue<Msg>)
      requires q.Valid() && DistinctSlots(q.slots[..]) && SlotBufs(q.slots[..]) <= live
      modifies `live, q, q.slots
      ensures q.Valid() && q.count == 0 && !q.available && SlotBufs(q.slots[..]) == {} && DistinctSlots(q.slots[..])
      ensures live == old(live) - SlotBufs(old(q.slots[..]))
    {
      q.count := 0;
      q.readIndex := 0;
      q.writeIndex := 0;
      q.available := false;
      FreeSlots(q.slots);
      EmptyRing(q.slots[..], 0);
    }

    /** What pf_alarm_close does to one priority, after the ERR frame has been sent. */
    method ClosePriority(ix: nat, ghost hand: set<nat>)
      requires Balanced(hand) && ix < 2
      modifies this, if ix == 0 then lowQ else highQ, if ix == 0 then lowQ.slots else highQ.slots
      ensures Balanced(hand) && unchanged(`wire, `ups, `foreign)
      ensures apmx == old(apmx)[ix := CloseReq(old(apmx[ix]), Env(false, false, false, false)).m]
    {
      CloseStates(ix, hand);
      DropSaved(ix, hand);
      if apmx[ix].apmr != ApmrClosed {
        CloseQueue(ix, hand);
      }
    }

    /** ALPMI, ALPMR and APMS of one priority close, and the timer that the handle refers to is removed. */
    method CloseStates(ix: nat, ghost hand: set<nat>)
      requires Balanced(hand) && ix < 2
      modifies `apmx
      ensures Balanced(hand)
      ensures apmx == old(apmx)[ix := CloseReq(old(apmx[ix]), Env(false, false, false, false)).m.(
                                        saved := old(apmx[ix]).saved, apmr := old(apmx[ix]).apmr)]
    {
      var m := apmx[ix].(alpmi := AlpmiWStart, alpmr := AlpmrWStart);
      if m.apms != ApmsClosed {
        m := m.(timers := if m.handle && m.timers > 0 then m.timers - 1 else m.timers, handle := false, apms := ApmsClosed);
      }
      Put(ix, m, hand);
    }

    /** pf_alarm_close: the ERR frame goes out on the low priority, then both priorities close. */
    method Close(env: Env, ghost hand: set<nat>)
      requires Balanced(hand)
      modifies this, lowQ, lowQ.slots, highQ, highQ.slots
      ensures Balanced(hand) && unchanged(`ups, `foreign)
      ensures apmx == [CloseReq(old(apmx[0]), env).m, CloseReq(old(apmx[1]), env).m]
      ensures wire == Logged(old(wire), 0, CloseReq(old(apmx[0]), env).wire)
    {
      assert wire[0] + [] == wire[0];
      if apmx[0].apms != ApmsClosed {
        var m := apmx[0];
        var err := Frame(1, ErrPdu, false, m.send, m.expO, 4, Status(0));
        var ok := Transmit(0, err, Env(env.errSent, env.errSent, false, false), hand);
      }
      ClosePriority(0, hand);
      ClosePriority(1, hand);
    }

    /** The outcome o of a step of priority ix has been carried out; if it aborted, the other priority is closed too. */
    ghost predicate Did(ix: nat, o: Out, env: Env, m0: seq<Apmx>, wire0: seq<seq<Frame>>, ups0: seq<seq<Up>>)
      requires ix < 2 == |m0| == |wire0| == |ups0|
      reads this
    {
      var closed := CloseReq(m0[1 - ix], env);
      var other := if Aborted in o.ups then closed.m else m0[1 - ix];
      var otherWire := if Aborted in o.ups then closed.wire else [];
      && apmx == (if ix == 0 then [o.m, other] else [other, o.m])
      && wire == Logged(Logged(wire0, ix, o.wire), 1 - ix, otherWire)
      && ups == Logged(ups0, ix, o.ups)
    }

    /** A step that aborts nothing leaves the other priority alone. */
    lemma DidAlone(ix: nat, o: Out, env: Env, m0: seq<Apmx>, wire0: seq<seq<Frame>>, ups0: seq<seq<Up>>)
      requires ix < 2 == |m0| == |wire0| == |ups0| && Aborted !in o.ups
      requires apmx == m0[ix := o.m] && wire == Logged(wire0, ix, o.wire) && ups == Logged(ups0, ix, o.ups)
      ensures Did(ix, o, env, m0, wire0, ups0)
    {
      NothingLogged(wire, 1 - ix);
    }

    /** pf_alarm_error_ind: CMSU is told, and closes the alarm instance. */
    method ErrorIndication(ix: nat, env: Env, ghost hand: set<nat>)
      requires Balanced(hand) && ix < 2
      modifies this, lowQ, lowQ.slots, highQ, highQ.slots
      ensures Balanced(hand) && unchanged(`foreign)
      ensures Did(ix, ErrorInd(old(apmx[ix]), env), env, old(apmx), old(wire), old(ups))
    {
      ups := Logged(ups, ix, [Aborted]);
      assert wire[0] + [] == wire[0] && wire[1] + [] == wire[1];
      Close(env, hand);
    }

    /** pf_alarm_apms_apms_a_data_req */
    method SendData(ix: nat, body: Body, env: Env, ghost hand: set<nat>) returns (ok: bool)
      requires Balanced(hand) && ix < 2
      modifies this, lowQ, lowQ.slots, highQ, highQ.slots
      ensures Balanced(hand) && unchanged(`foreign)
      ensures Did(ix, DataReq(old(apmx[ix]), body, env), env, old(apmx), old(wire), old(ups))
      ensures Aborted !in DataReq(old(apmx[ix]), body, env).ups ==> unchanged(lowQ, lowQ.slots, highQ, highQ.slots)
      ensures ok == DataReq(old(apmx[ix]), body, env).ok
    {
      if apmx[ix].apms != ApmsOpen {
        ErrorIndication(ix, env, hand);
        ok := false;
      } else {
        ok := SendWhenOpen(ix, body, env, hand);
        NothingLogged(ups, ix);
        DidAlone(ix, DataReq(old(apmx[ix]), body, env), env, old(apmx), old(wire), old(ups));
      }
    }

    method SendWhenOpen(ix: nat, body: Body, env: Env, ghost hand: set<nat>) returns (ok: bool)
      requires Balanced(hand) && ix < 2 && apmx[ix].apms == ApmsOpen
      modifies this
      ensures Balanced(hand) && unchanged(`foreign, `ups)
      ensures apmx == old(apmx)[ix := DataReq(old(apmx[ix]), body, env).m]
      ensures wire == Logged(old(wire), ix, DataReq(old(apmx[ix]), body, env).wire)
      ensures ok == DataReq(old(apmx[ix]), body, env).ok
    {
      var f := Frame(1, DataPdu, true, apmx[ix].send, apmx[ix].expO, 1, body);
      ok := SendNew(ix, f, env, hand);
      StartTimer(ix, env, hand);
      ok := ok && env.timer;
    }

    method SendNew(ix: nat, f: Frame, env: Env, ghost hand: set<nat>) returns (ok: bool)
      requires Balanced(hand) && ix < 2 && f.tack
      modifies this
      ensures Balanced(hand) && unchanged(`foreign, `ups) && (ok <==> env.alloc && env.sent)
      ensures var m := old(apmx[ix]);
        apmx == old(apmx)[ix := m.(resend := m.retries, saved := if env.alloc && m.saved.None? then Some(f) else m.saved)]
      ensures wire == Logged(old(wire), ix, if ok then [f] else [])
    {
      Put(ix, apmx[ix].(resend := apmx[ix].retries), hand);
      ok := Transmit(ix, f, env, hand);
    }

    /** APMS waits for the TACK, and its resend timer is started, if that can be done. */
    method StartTimer(ix: nat, env: Env, ghost hand: set<nat>)
      requires Balanced(hand) && ix < 2
      modifies `apmx
      ensures Balanced(hand)
      ensures var m := old(apmx[ix]);
        apmx == old(apmx)[ix := m.(apms := ApmsWTack, timers := if env.timer then m.timers + 1 else m.timers, handle := env.timer)]
    {
      var m := apmx[ix];
      Put(ix, m.(apms := ApmsWTack, timers := if env.timer then m.timers + 1 else m.timers, handle := env.timer), hand);
    }

    /** pf_alarm_apms_a_data_ind: a matching TACK frees the saved frame. */
    method AckIndication(ix: nat, f: Frame, ghost hand: set<nat>)
      requires Balanced(hand) && ix < 2
      modifies this
      ensures Balanced(hand) && unchanged(`foreign, `wire)
      ensures apmx == old(apmx)[ix := AckInd(old(apmx[ix]), f).m]
      ensures ups == Logged(old(ups), ix, AckInd(old(apmx[ix]), f).ups)
    {
      NothingLogged(ups, ix);
      var m := apmx[ix];
      if (f.pdu == AckPdu || f.pdu == DataPdu) && m.apms == ApmsWTack && f.ackSeq == m.send {
        Put(ix, m.(sendO := m.send, send := NextSeq(m.send)), hand);
        DropSaved(ix, hand);
        ConfirmSent(ix, hand);
      }
    }

    /** APMS_A_Data.cnf(+) to ALPMI and ALPMR, after which APMS is open again. */
    method ConfirmSent(ix: nat, ghost hand: set<nat>)
      requires Balanced(hand) && ix < 2
      modifies `apmx, `ups
      ensures Balanced(hand)
      ensures var m := old(apmx[ix]);
        apmx == old(apmx)[ix := m.(apms := ApmsOpen, alpmr := if m.alpmr == AlpmrWTack then AlpmrWNotify else m.alpmr)]
      ensures ups == Logged(old(ups), ix, if old(apmx[ix]).alpmr == AlpmrWTack then [AckConfirmed] else [])
    {
      NothingLogged(ups, ix);
      if apmx[ix].alpmr == AlpmrWTack {
        ups := Logged(ups, ix, [AckConfirmed]);
        Put(ix, apmx[ix].(alpmr := AlpmrWNotify), hand);
      }
      Put(ix, apmx[ix].(apms := ApmsOpen), hand);
    }

    /** pf_alarm_apms_timeout */
    method TimerFired(ix: nat, env: Env)
      requires Balanced({}) && ix < 2 && apmx[ix].timers > 0
      modifies this, lowQ, lowQ.slots, highQ, highQ.slots
      ensures Balanced({}) && unchanged(`foreign)
      ensures Did(ix, Timeout(old(apmx[ix]), env), env, old(apmx), old(wire), old(ups))
      ensures Aborted !in Timeout(old(apmx[ix]), env).ups ==> unchanged(lowQ, lowQ.slots, highQ, highQ.slots)
    {
      TimeoutIs(apmx[ix], env);
      Put(ix, apmx[ix].(timers := apmx[ix].timers - 1, handle := false), {});
      if Exhausted(apmx[ix]) {
        GiveUp(ix, env);
      } else {
        RetransmitOrDrop(ix, env);
        NothingLogged(ups, ix);
        DidAlone(ix, Timeout(old(apmx[ix]), env), env, old(apmx), old(wire), old(ups));
      }
    }

    method RetransmitOrDrop(ix: nat, env: Env)
      requires Balanced({}) && ix < 2 && !Exhausted(apmx[ix])
      modifies this
      ensures Balanced({}) && unchanged(`foreign, `ups)
      ensures apmx == old(apmx)[ix := AfterTimeout(old(apmx[ix]), env)]
      ensures wire == Logged(old(wire), ix, AgainSent(old(apmx[ix]), env))
    {
      NothingLogged(wire, ix);
      if apmx[ix].apms != ApmsWTack {
        DropSaved(ix, {});
      } else if apmx[ix].saved.Some? {
        Retransmit(ix, env);
      }
    }

    method GiveUp(ix: nat, env: Env)
      requires Balanced({}) && ix < 2
      modifies this, lowQ, lowQ.slots, highQ, highQ.slots
      ensures Balanced({}) && unchanged(`foreign)
      ensures Did(ix, ErrorInd(old(apmx[ix]).(apms := ApmsOpen), env), env, old(apmx), old(wire), old(ups))
    {
      Put(ix, apmx[ix].(apms := ApmsOpen), {});
      ErrorIndication(ix, env, {});
    }

    method Retransmit(ix: nat, env: Env)
      requires Balanced({}) && ix < 2 && apmx[ix].resend > 0 && apmx[ix].saved.Some?
      modifies `apmx, `wire
      ensures Balanced({})
      ensures var m := old(apmx[ix]);
        apmx == old(apmx)[ix := m.(resend := m.resend - 1, timers := if env.timer then m.timers + 1 else m.timers, handle := env.timer)]
      ensures wire == Logged(old(wire), ix, if env.sent then [old(apmx[ix]).saved.value] else [])
    {
      NothingLogged(wire, ix);
      var m := apmx[ix];
      Put(ix, m.(resend := m.resend - 1), {});
      if env.sent {
        wire := Logged(wire, ix, [m.saved.value]);
      }
      Put(ix, apmx[ix].(timers := if env.timer then m.timers + 1 else m.timers, handle := env.timer), {});
    }

    /** pf_alarm_apmr_send_ack and pf_alarm_apmr_send_nack */
    method SendReply(ix: nat, pdu: PduType, env: Env, ghost hand: set<nat>) returns (ok: bool)
      requires Balanced(hand) && ix < 2
      modifies this
      ensures Balanced(hand) && unchanged(`foreign, `ups, `apmx)
      ensures ok <==> env.alloc && env.sent
      ensures wire == Logged(old(wire), ix, Reply(old(apmx[ix]), pdu, env))
    {
      ok := Transmit(ix, ReplyFrame(apmx[ix], pdu), env, hand);
      assert apmx == old(apmx);
    }

    /** ALPMI or ALPMR gets the body; on success APMR leaves WCNF. */
    method DeliverUp(ix: nat, body: Body, env: Env, ghost hand: set<nat>) returns (ok: bool)
      requires Balanced(hand) && ix < 2 && apmx[ix].apmr == ApmrWCnf
      modifies this, lowQ, lowQ.slots, highQ, highQ.slots
      ensures Balanced(hand) && unchanged(`foreign)
      ensures Did(ix, Deliver(old(apmx[ix]), body, env), env, old(apmx), old(wire), old(ups))
      ensures Aborted !in Deliver(old(apmx[ix]), body, env).ups ==> unchanged(lowQ, lowQ.slots, highQ, highQ.slots)
      ensures ok == Deliver(old(apmx[ix]), body, env).ok
    {
      var m := apmx[ix];
      if body.Notification? && body.wellFormed && (m.alpmr == AlpmrWUserAck || m.alpmr == AlpmrWTack) {
        assert Deliver(m, body, env) == ErrorInd(m, env);
        ErrorIndication(ix, env, hand);
        ok := false;
      } else {
        ok := DeliverQuietly(ix, body, env, hand);
        NothingLogged(wire, ix);
        DidAlone(ix, Deliver(m, body, env), env, old(apmx), old(wire), old(ups));
      }
    }

    method DeliverQuietly(ix: nat, body: Body, env: Env, ghost hand: set<nat>) returns (ok: bool)
      requires Balanced(hand) && ix < 2 && apmx[ix].apmr == ApmrWCnf
      requires body.Notification? && body.wellFormed ==> apmx[ix].alpmr == AlpmrWStart || apmx[ix].alpmr == AlpmrWNotify
      modifies `apmx, `ups
      ensures Balanced(hand)
      ensures apmx == old(apmx)[ix := Deliver(old(apmx[ix]), body, env).m]
      ensures ups == Logged(old(ups), ix, Deliver(old(apmx[ix]), body, env).ups)
      ensures Aborted !in Deliver(old(apmx[ix]), body, env).ups
      ensures Deliver(old(apmx[ix]), body, env).wire == []
      ensures ok == Deliver(old(apmx[ix]), body, env).ok
    {
      NothingLogged(ups, ix);
      var m := apmx[ix];
      ok := true;
      var up := [];
      match body {
        case AlarmAck(status) =>
          if m.alpmi == AlpmiWAck {
            m := m.(alpmi := AlpmiWAlarm);
            up := [NotificationConfirmed(status)];
          }
        case Notification(data, wellFormed) =>
          if !wellFormed {
            ok := false;
          } else if m.alpmr == AlpmrWNotify {
            m := m.(alpmr := AlpmrWUserAck);
            up := [NotificationIndicated(data)];
          }
        case _ =>
          ok := false;
      }
      if ok {
        m := m.(apmr := ApmrOpen);
      }
      assert Deliver(apmx[ix], body, env) == Out(m, [], up, ok);
      ups := Logged(ups, ix, up);
      Put(ix, m, hand);
    }

    /** The part of pf_alarm_apmr_a_data_ind for an expected number and a known block type. */
    method AcceptData(ix: nat, f: Frame, env: Env, ghost hand: set<nat>) returns (ok: bool)
      requires Balanced(hand) && ix < 2 && apmx[ix].apmr == ApmrOpen
      modifies this, lowQ, lowQ.slots, highQ, highQ.slots
      ensures Balanced(hand) && unchanged(`foreign)
      ensures Did(ix, Accept(old(apmx[ix]), f, env), env, old(apmx), old(wire), old(ups))
      ensures Aborted !in Accept(old(apmx[ix]), f, env).ups ==> unchanged(lowQ, lowQ.slots, highQ, highQ.slots)
      ensures ok == Accept(old(apmx[ix]), f, env).ok
    {
      ok := CountAndReply(ix, f, env, hand);
      if ok {
        Put(ix, apmx[ix].(apmr := ApmrWCnf), hand);
        ghost var m1 := apmx;
        ok := DeliverUp(ix, f.body, env, hand);
        DidThen(ix, Accept(old(apmx[ix]), f, env), Deliver(m1[ix], f.body, env), env, old(apmx), old(wire), old(ups),
                m1, [ReplyFrame(m1[ix], AckPdu)], AckInd(old(apmx[ix]), f).ups);
      } else {
        DidAlone(ix, Accept(old(apmx[ix]), f, env), env, old(apmx), old(wire), old(ups));
      }
    }

    /** Before the body goes up: the counters move, and the TACK is sent. */
    method CountAndReply(ix: nat, f: Frame, env: Env, ghost hand: set<nat>) returns (ok: bool)
      requires Balanced(hand) && ix < 2 && apmx[ix].apmr == ApmrOpen
      modifies this
      ensures Balanced(hand) && unchanged(`foreign) && (ok <==> env.alloc && env.sent)
      ensures apmx == old(apmx)[ix := Counted(old(apmx[ix]), f)]
      ensures wire == Logged(old(wire), ix, Reply(Counted(old(apmx[ix]), f), AckPdu, env))
      ensures ups == Logged(old(ups), ix, AckInd(old(apmx[ix]), f).ups)
    {
      AckIndication(ix, f, hand);
      Put(ix, apmx[ix].(expO := apmx[ix].exp, exp := NextSeq(apmx[ix].exp)), hand);
      ok := SendReply(ix, AckPdu, env, hand);
    }

    /** What was done after a first part that aborted nothing, joined with that part. */
    lemma DidThen(ix: nat, o: Out, d: Out, env: Env, m0: seq<Apmx>, wire0: seq<seq<Frame>>, ups0: seq<seq<Up>>,
                  m1: seq<Apmx>, w: seq<Frame>, u: seq<Up>)
      requires ix < 2 == |m0| == |wire0| == |ups0| == |m1| && m1[1 - ix] == m0[1 - ix]
      requires Did(ix, d, env, m1, Logged(wire0, ix, w), Logged(ups0, ix, u))
      requires o.m == d.m && o.wire == w + d.wire && o.ups == u + d.ups && Aborted !in u
      ensures Did(ix, o, env, m0, wire0, ups0)
    {
      assert wire0[ix] + w + d.wire == wire0[ix] + (w + d.wire);
      assert ups0[ix] + u + d.ups == ups0[ix] + (u + d.ups);
    }

    /** pf_alarm_apmr_a_data_ind */
    method DataIndication(ix: nat, f: Frame, env: Env, ghost hand: set<nat>) returns (ok: bool)
      requires Balanced(hand) && ix < 2
      modifies this, lowQ, lowQ.slots, highQ, highQ.slots
      ensures Balanced(hand) && unchanged(`foreign)
      ensures Did(ix, DataInd(old(apmx[ix]), f, env), env, old(apmx), old(wire), old(ups))
      ensures Aborted !in DataInd(old(apmx[ix]), f, env).ups ==> unchanged(lowQ, lowQ.slots, highQ, highQ.slots)
      ensures ok == DataInd(old(apmx[ix]), f, env).ok
    {
      var m := apmx[ix];
      var expected := m.apmr == ApmrOpen && f.tack && f.sendSeq == m.exp;
      if expected && (f.body.AlarmAck? || f.body.Notification?) {
        ok := AcceptData(ix, f, env, hand);
        return;
      }
      if expected {
        assert DataInd(m, f, env) == ErrorInd(m, env);
        ErrorIndication(ix, env, hand);
        return false;
      }
      ok := m.apmr != ApmrWCnf;
      AnswerOther(ix, f, env, hand);
    }

    /** A frame that is not the expected one is answered by an ACK or a NACK, or not at all. */
    method AnswerOther(ix: nat, f: Frame, env: Env, ghost hand: set<nat>)
      requires Balanced(hand) && ix < 2 && !(apmx[ix].apmr == ApmrOpen && f.tack && f.sendSeq == apmx[ix].exp)
      modifies this
      ensures Balanced(hand) && unchanged(`foreign)
      ensures var o := DataInd(old(apmx[ix]), f, env);
        Did(ix, o, env, old(apmx), old(wire), old(ups)) && Aborted !in o.ups && o.ok == (old(apmx[ix]).apmr != ApmrWCnf)
    {
      NothingLogged(ups, ix);
      NothingLogged(wire, ix);
      if apmx[ix].apmr == ApmrOpen && f.tack {
        if f.sendSeq == apmx[ix].expO {
          AckIndication(ix, f, hand);
          var sent := SendReply(ix, AckPdu, env, hand);
        } else {
          var sent := SendReply(ix, NackPdu, env, hand);
        }
      }
      DidAlone(ix, DataInd(old(apmx[ix]), f, env), env, old(apmx), old(wire), old(ups));
    }

    /** The queues after a step: emptied if it aborted, for then both priorities are closed. */
    ghost predicate QueuesAfter(aborted: bool, low: seq<Msg>, high: seq<Msg>)
      requires Shaped()
      reads this, lowQ, lowQ.slots, highQ, highQ.slots
    {
      if aborted then Queued(0) == [] && Queued(1) == [] else Queued(0) == low && Queued(1) == high
    }

    /** The body of the loop of pf_alarm_apmr_periodic, between fetching the frame and freeing its buffer. */
    method HandleFrame(ix: nat, f: Frame, env: Env, ghost hand: set<nat>) returns (ok: bool)
      requires Balanced(hand) && ix < 2
      modifies this, lowQ, lowQ.slots, highQ, highQ.slots
      ensures Balanced(hand) && unchanged(`foreign)
      ensures QueuesAfter(Aborted in Receive(old(apmx[ix]), f, env).ups, old(Queued(0)), old(Queued(1)))
      ensures Did(ix, Receive(old(apmx[ix]), f, env), env, old(apmx), old(wire), old(ups))
      ensures ok == Receive(old(apmx[ix]), f, env).ok
    {
      if f.version == 1 && f.pdu == DataPdu {
        AbortCloses(apmx[ix], f, env);
        ok := DataIndication(ix, f, env, hand);
        return;
      }
      if f.version == 1 && f.pdu == ErrPdu && f.varLen == 4 {
        ErrorIndication(ix, env, hand);
        return true;
      }
      ok := true;
      HandleSmall(ix, f, env, hand);
    }

    /** The frames that neither carry data nor an error. */
    method HandleSmall(ix: nat, f: Frame, env: Env, ghost hand: set<nat>)
      requires Balanced(hand) && ix < 2
      requires !(f.version == 1 && f.pdu == DataPdu) && !(f.version == 1 && f.pdu == ErrPdu && f.varLen == 4)
      modifies this
      ensures Balanced(hand) && unchanged(`foreign)
      ensures var o := Receive(old(apmx[ix]), f, env);
        Did(ix, o, env, old(apmx), old(wire), old(ups)) && Aborted !in o.ups && o.ok
    {
      NothingLogged(ups, ix);
      NothingLogged(wire, ix);
      if f.version == 1 && f.pdu == AckPdu && f.varLen == 0 {
        AckIndication(ix, f, hand);
      }
      DidAlone(ix, Receive(old(apmx[ix]), f, env), env, old(apmx), old(wire), old(ups));
    }

    /** pf_alarm_receive_queue_fetch for one priority: the buffer passes from the queue to the caller. */
    method FetchFrame(ix: nat) returns (x: Option<Msg>)
      requires Balanced({}) && ix < 2
      modifies if ix == 0 then lowQ else highQ, if ix == 0 then lowQ.slots else highQ.slots
      ensures Balanced(if x.Some? then {x.value.buf} else {})
      ensures (x.Some? ==> x.value.buf in live) && Queued(1 - ix) == old(Queued(1 - ix))
      ensures x.Some? <==> old(Queued(ix)) != []
      ensures if x.Some? then old(Queued(ix)) == [x.value] + Queued(ix) else Queued(ix) == old(Queued(ix))
    {
      if apmx[ix].apmr == ApmrClosed {
        return None;
      }
      if ix == 0 {
        x := FetchLow();
      } else {
        x := FetchHigh();
      }
    }

    method FetchLow() returns (x: Option<Msg>)
      requires Balanced({}) && lowQ.available
      modifies lowQ, lowQ.slots
      ensures Balanced(if x.Some? then {x.value.buf} else {}) && (x.Some? ==> x.value.buf in live)
      ensures x.Some? <==> old(Queued(0)) != []
      ensures if x.Some? then old(Queued(0)) == [x.value] + Queued(0) else Queued(0) == old(Queued(0))
    {
      FetchedSlot(lowQ.slots[..], lowQ.readIndex, lowQ.count);
      if lowQ.count > 0 {
        TakenInHand(live, foreign, SavedBufs(rta), SlotBufs(lowQ.slots[..]), SlotBufs(highQ.slots[..]),
                    lowQ.slots[lowQ.readIndex].value.buf);
      }
      x := lowQ.Fetch();
    }

    method FetchHigh() returns (x: Option<Msg>)
      requires Balanced({}) && highQ.available
      modifies highQ, highQ.slots
      ensures Balanced(if x.Some? then {x.value.buf} else {}) && (x.Some? ==> x.value.buf in live)
      ensures x.Some? <==> old(Queued(1)) != []
      ensures if x.Some? then old(Queued(1)) == [x.value] + Queued(1) else Queued(1) == old(Queued(1))
    {
      FetchedSlot(highQ.slots[..], highQ.readIndex, highQ.count);
      if highQ.count > 0 {
        TakenInHand(live, foreign, SavedBufs(rta), SlotBufs(lowQ.slots[..]), SlotBufs(highQ.slots[..]),
                    highQ.slots[highQ.readIndex].value.buf);
      }
      x := highQ.Fetch();
    }

    /** The frames waiting in a receive queue, oldest first. */
    ghost function Queued(ix: nat): seq<Msg>
      requires Shaped() && ix < 2
      reads this, lowQ, lowQ.slots, highQ, highQ.slots
    {
      if ix == 0 then lowQ.Contents() else highQ.Contents()
    }

    /** pf_alarm_apmr_frame_handler with a frame for this AR: queued, or left to the caller to free. */
    method FrameHandler(ix: nat, x: Msg) returns (queued: bool)
      requires Balanced({x.buf}) && ix < 2
      modifies if ix == 0 then lowQ else highQ, if ix == 0 then lowQ.slots else highQ.slots
      ensures Balanced(if queued then {} else {x.buf})
      ensures Queued(ix) == if queued then old(Queued(ix)) + [x] else old(Queued(ix))
    {
      var q := if ix == 0 then lowQ else highQ;
      ghost var s := q.slots[..];
      if q.count < q.slots.Length {
        StoreAppends(s, q.readIndex, q.count, x);
        SlotFilled(s, q.writeIndex, x);
      }
      queued := q.Post(x);
    }

    /** One frame of pf_alarm_apmr_periodic: fetched, handled, and its buffer freed, even if handling it closed the AR. */
    method HandleNext(ix: nat, env: Env) returns (ok: bool)
      requires Balanced({}) && ix < 2 && Queued(ix) != []
      modifies this, lowQ, lowQ.slots, highQ, highQ.slots
      ensures Balanced({}) && unchanged(`foreign)
      ensures var o := Receive(old(apmx[ix]), old(Queued(ix))[0].frame, env);
        && Did(ix, o, env, old(apmx), old(wire), old(ups)) && ok == o.ok
        && Queued(ix) == (if Aborted in o.ups then [] else old(Queued(ix))[1..])
        && Queued(1 - ix) == (if Aborted in o.ups then [] else old(Queued(1 - ix)))
    {
      var x := FetchFrame(ix);
      ok := HandleInHand(ix, x.value, env);
    }

    method HandleInHand(ix: nat, x: Msg, env: Env) returns (ok: bool)
      requires Balanced({x.buf}) && ix < 2
      modifies this, lowQ, lowQ.slots, highQ, highQ.slots
      ensures Balanced({}) && unchanged(`foreign)
      ensures QueuesAfter(Aborted in Receive(old(apmx[ix]), x.frame, env).ups, old(Queued(0)), old(Queued(1)))
      ensures Did(ix, Receive(old(apmx[ix]), x.frame, env), env, old(apmx), old(wire), old(ups))
      ensures ok == Receive(old(apmx[ix]), x.frame, env).ok
    {
      ok := HandleFrame(ix, x.frame, env, {x.buf});
      FreedFromHand(live, foreign, SavedBufs(rta), SlotBufs(lowQ.slots[..]), SlotBufs(highQ.slots[..]), x.buf);
      Free(x.buf);
    }

    method DrainOne(ix: nat, env: Env) returns (ok: bool, ghost h: Handled)
      requires Balanced({}) && ix < 2 && Queued(ix) != []
      modifies this, lowQ, lowQ.slots, highQ, highQ.slots
      ensures Balanced({}) && unchanged(`foreign)
      ensures HandledWell(h) && h.before == old(apmx[ix]) && h.msg == old(Queued(ix))[0] && h.env == env && ok == h.out.ok
      ensures apmx[ix] == h.out.m && LoggedOne(h, ix, old(apmx), old(wire), old(ups), apmx, wire, ups)
      ensures Queued(ix) == if apmx[ix].apmr != ApmrClosed then old(Queued(ix))[1..] else []
      ensures Queued(1 - ix) == if apmx[ix].apmr != ApmrClosed then old(Queued(1 - ix)) else []
    {
      ghost var m, x := apmx[ix], Queued(ix)[0];
      ghost var wire1 := wire;
      AbortCloses(m, x.frame, env);
      ok := HandleNext(ix, env);
      h := Handled(m, x, env, Receive(m, x.frame, env));
      assert wire1[1 - ix] + [] == wire1[1 - ix];
    }

    method DrainStep(ix: nat, env: Env, ghost steps: seq<Handled>, ghost m0: seq<Apmx>, ghost wire0: seq<seq<Frame>>,
                     ghost ups0: seq<seq<Up>>, ghost q0: seq<Msg>, ghost other0: seq<Msg>)
      returns (ok: bool, ghost h: Handled)
      requires Balanced({}) && ix < 2 == |m0| == |wire0| == |ups0|
      requires apmx[ix].apmr != ApmrClosed && Queued(ix) != [] && Ran(steps, ix, m0, wire0, ups0, q0, other0)
      modifies this, lowQ, lowQ.slots, highQ, highQ.slots
      ensures Balanced({}) && unchanged(`foreign)
      ensures Ran(steps + [h], ix, m0, wire0, ups0, q0, other0)
      ensures HandledWell(h) && ok == h.out.ok && |Queued(ix)| < |old(Queued(ix))|
    {
      ghost var m1, wire1, ups1 := apmx, wire, ups;
      ok, h := DrainOne(ix, env);
      ChainExtends(steps, m0[ix], q0, h);
      LogExtends(steps, h, ix, m0, wire0, ups0, m1, wire1, ups1, apmx, wire, ups);
    }

    /** After the steps of one priority; they started from the given machines, logs and queues. */
    ghost predicate Ran(steps: seq<Handled>, ix: nat, m0: seq<Apmx>, wire0: seq<seq<Frame>>, ups0: seq<seq<Up>>,
                        q0: seq<Msg>, other0: seq<Msg>)
      requires ix < 2 == |m0| == |wire0| == |ups0| && Shaped()
      reads this, lowQ, lowQ.slots, highQ, highQ.slots
    {
      && Chain(steps, m0[ix], q0, apmx[ix])
      && LoggedFor(steps, ix, m0, wire0, ups0, apmx, wire, ups)
      && Queued(ix) == (if Closing(steps, apmx[ix]) then [] else q0[|steps|..])
      && Queued(1 - ix) == (if Closing(steps, apmx[ix]) then [] else other0)
    }

    /**
     The while loop of pf_alarm_apmr_periodic over the queue of one priority: the frames are handled in the order in
     which they arrived, each on the machine that the one before left, until the queue is empty, the AR
     is closed, or a frame is not handled well. `steps` is the record of it.
     */
    method DrainQueue(ix: nat, envs: nat -> Env) returns (ok: bool, ghost steps: seq<Handled>)
      requires Balanced({}) && ix < 2
      modifies this, lowQ, lowQ.slots, highQ, highQ.slots
      ensures Balanced({}) && unchanged(`foreign)
      ensures Ran(steps, ix, old(apmx), old(wire), old(ups), old(Queued(ix)), old(Queued(1 - ix)))
      ensures WellRun(steps, ok)
      ensures ok ==> apmx[ix].apmr == ApmrClosed || Queued(ix) == []
    {
      ok := true;
      steps := [];
      var k := 0;
      ghost var m0, w0, u0, q0, other0 := apmx, wire, ups, Queued(ix), Queued(1 - ix);
      NothingLogged(ups, ix);
      NothingLogged(wire, ix);
      while ok && apmx[ix].apmr != ApmrClosed && (if ix == 0 then lowQ else highQ).count > 0
        invariant Balanced({}) && unchanged(`foreign)
        invariant Ran(steps, ix, m0, w0, u0, q0, other0)
        invariant WellRun(steps, ok)
        decreases |Queued(ix)|
      {
        ghost var h;
        ok, h := DrainStep(ix, envs(k), steps, m0, w0, u0, q0, other0);
        WellRunExtends(steps, h);
        steps := steps + [h];
        k := k + 1;
      }
    }

    /** pf_alarm_apmr_periodic: the low queue, then the high one unless the first ended badly. */
    method ApmrPeriodic(envs: nat -> Env)
      returns (ghost lowSteps: seq<Handled>, ghost highSteps: seq<Handled>, ghost mid: Snapshot)
      requires Balanced({})
      modifies this, lowQ, lowQ.slots, highQ, highQ.slots
      ensures Balanced({}) && unchanged(`foreign)
      ensures WellRun(lowSteps, !EndsBadly(lowSteps)) && WellRun(highSteps, !EndsBadly(highSteps))
      // The low priority first, up to a frame that is not handled well or closes the AR
      ensures |mid.m| == |mid.wire| == |mid.ups| == 2 && Chain(lowSteps, old(apmx[0]), old(Queued(0)), mid.m[0])
      ensures LoggedFor(lowSteps, 0, old(apmx), old(wire), old(ups), mid.m, mid.wire, mid.ups)
      ensures mid.low == (if Closing(lowSteps, mid.m[0]) then [] else old(Queued(0))[|lowSteps|..])
      ensures mid.high == (if Closing(lowSteps, mid.m[0]) then [] else old(Queued(1)))
      ensures EndsBadly(lowSteps) || mid.m[0].apmr == ApmrClosed || mid.low == []
      // Then the high priority in the same way, or nothing
      ensures Chain(highSteps, mid.m[1], mid.high, apmx[1])
      ensures LoggedFor(highSteps, 1, mid.m, mid.wire, mid.ups, apmx, wire, ups)
      ensures Queued(1) == (if Closing(highSteps, apmx[1]) then [] else mid.high[|highSteps|..])
      ensures Queued(0) == (if Closing(highSteps, apmx[1]) then [] else mid.low)
      ensures if EndsBadly(lowSteps) then highSteps == []
              else EndsBadly(highSteps) || apmx[1].apmr == ApmrClosed || Queued(1) == []
    {
      var ok;
      ok, lowSteps := DrainQueue(0, envs);
      highSteps := [];
      mid := Snapshot(apmx, wire, ups, Queued(0), Queued(1));
      NothingLogged(ups, 1);
      NothingLogged(wire, 1);
      if ok {
        ok, highSteps := DrainQueue(1, envs);
      }
    }

    /** pf_alarm_send_internal: ALPMI hands a notification to APMS. */
    method SendNotification(ix: nat, data: int, env: Env)
      requires Balanced({}) && ix < 2 && apmx[ix].alpmi == AlpmiWAlarm
      modifies this, lowQ, lowQ.slots, highQ, highQ.slots
      ensures Balanced({}) && unchanged(`foreign)
      ensures Did(ix, Notify(old(apmx[ix]), data, env), env, old(apmx), old(wire), old(ups))
    {
      var ok := SendData(ix, Notification(data, true), env, {});
      if ok {
        Put(ix, apmx[ix].(alpmi := AlpmiWAck), {});
      }
    }

    /** pf_alarm_alpmr_alarm_ack: always through the high priority, whatever the priority of the notification was. */
    method SendAlarmAck(status: int, env: Env) returns (ok: bool)
      requires Balanced({})
      modifies this, lowQ, lowQ.slots, highQ, highQ.slots
      ensures Balanced({}) && unchanged(`foreign)
      ensures Did(1, UserAck(old(apmx[1]), status, env), env, old(apmx), old(wire), old(ups))
      ensures ok == UserAck(old(apmx[1]), status, env).ok
    {
      if apmx[1].alpmr != AlpmrWUserAck {
        NothingLogged(ups, 1);
        NothingLogged(wire, 1);
        NothingLogged(wire, 0);
        return false;
      }
      ok := SendData(1, AlarmAck(status), env, {});
      Put(1, apmx[1].(alpmr := AlpmrWTack), {});
    }

    /**
     pf_alarm_almpi_periodic: at most one queued alarm leaves, the oldest of its queue, and a low priority one only if
     the high priority could not send: its ALPMI is waiting for an acknowledgement, or its queue is empty.
     */
    method AlmpiPeriodic(enabled: bool, lowSend: RingQueue<int>, highSend: RingQueue<int>, env: Env)
      requires Balanced({}) && lowSend.Valid() && highSend.Valid() && lowSend.available && highSend.available
      requires lowSend != highSend && lowSend.slots != highSend.slots
      modifies this, lowQ, lowQ.slots, highQ, highQ.slots, lowSend, lowSend.slots, highSend, highSend.slots
      ensures Balanced({}) && unchanged(`foreign) && lowSend.Valid() && highSend.Valid()
      ensures var high := enabled && old(apmx[1].alpmi) == AlpmiWAlarm && old(highSend.Contents()) != [];
        var low := enabled && !high && old(apmx[0].alpmi) == AlpmiWAlarm && old(lowSend.Contents()) != [];
        && highSend.Contents() == (if high then old(highSend.Contents())[1..] else old(highSend.Contents()))
        && lowSend.Contents() == (if low then old(lowSend.Contents())[1..] else old(lowSend.Contents()))
        && (high ==> Did(1, Notify(old(apmx[1]), old(highSend.Contents())[0], env), env, old(apmx), old(wire), old(ups)))
        && (low ==> Did(0, Notify(old(apmx[0]), old(lowSend.Contents())[0], env), env, old(apmx), old(wire), old(ups)))
        && (!high && !low ==> apmx == old(apmx) && wire == old(wire) && ups == old(ups))
    {
      if enabled {
        var sent := SendFrom(1, highSend, env);
        if !sent {
          sent := SendFrom(0, lowSend, env);
        }
      }
    }

    /** One priority's turn: nothing happens unless its ALPMI is idle and its queue holds an alarm. */
    method SendFrom(ix: nat, queue: RingQueue<int>, env: Env) returns (sent: bool)
      requires Balanced({}) && ix < 2 && queue.Valid() && queue.available
      modifies this, lowQ, lowQ.slots, highQ, highQ.slots, queue, queue.slots
      ensures Balanced({}) && unchanged(`foreign) && queue.Valid() && queue.available
      ensures sent <==> old(apmx[ix].alpmi) == AlpmiWAlarm && old(queue.Contents()) != []
      ensures !sent ==> unchanged(this) && queue.Contents() == old(queue.Contents())
      ensures sent ==>
        && queue.Contents() == old(queue.Contents())[1..]
        && Did(ix, Notify(old(apmx[ix]), old(queue.Contents())[0], env), env, old(apmx), old(wire), old(ups))
    {
      sent := false;
      if apmx[ix].alpmi == AlpmiWAlarm {
        var x := queue.Fetch();
        if x.Some? {
          SendNotification(ix, x.value, env);
          sent := true;
        }
      }
    }
  }

  /** The state of an AR between the two queues. */
  datatype Snapshot = Snapshot(m: seq<Apmx>, wire: seq<seq<Frame>>, ups: seq<seq<Up>>, low: seq<Msg>, high: seq<Msg>)

  /** One handled frame: the machine that it found, and the outcome. */
  datatype Handled = Handled(before: Apmx, msg: Msg, env: Env, out: Out)

  predicate HandledWell(h: Handled) {
    h.out == Receive(h.before, h.msg.frame, h.env)
  }

  /** The steps lead from m0 to m1 and take the messages of q0 in order. */
  ghost predicate Chain(steps: seq<Handled>, m0: Apmx, q0: seq<Msg>, m1: Apmx) {
    && |steps| <= |q0|
    && (if steps == [] then m1 == m0 else steps[0].before == m0 && steps[|steps| - 1].out.m == m1)
    && (forall i :: 0 <= i < |steps| ==> steps[i].msg == q0[i])
    && (forall i :: 0 <= i < |steps| - 1 ==> steps[i + 1].before == steps[i].out.m)
  }

  lemma ChainExtends(steps: seq<Handled>, m0: Apmx, q0: seq<Msg>, h: Handled)
    requires Chain(steps, m0, q0, h.before) && |steps| < |q0| && h.msg == q0[|steps|]
    ensures Chain(steps + [h], m0, q0, h.out.m)
  {
  }

  /** While APMR is in WCNF, a DATA frame at the head of its queue ends the loop, and so makes the other queue wait. */
  lemma BlockedQueueEndsBadly(steps: seq<Handled>, m0: Apmx, q0: seq<Msg>, m1: Apmx, ok: bool)
    requires Chain(steps, m0, q0, m1) && WellRun(steps, ok) && steps != []
    requires m0.apmr == ApmrWCnf && q0[0].frame.version == 1 && q0[0].frame.pdu == DataPdu
    ensures |steps| == 1 && EndsBadly(steps) && m1 == m0
  {
    assert HandledWell(steps[0]);
  }

  predicate EndsBadly(steps: seq<Handled>) {
    steps != [] && !steps[|steps| - 1].out.ok
  }

  /** Every frame was handled as the machine prescribes, and only the last one can have gone badly. */
  ghost predicate WellRun(steps: seq<Handled>, ok: bool) {
    && (forall i :: 0 <= i < |steps| ==> HandledWell(steps[i]))
    && (forall i :: 0 <= i < |steps| - 1 ==> steps[i].out.ok)
    && (EndsBadly(steps) <==> !ok)
  }

  lemma WellRunExtends(steps: seq<Handled>, h: Handled)
    requires WellRun(steps, true) && HandledWell(h)
    ensures WellRun(steps + [h], h.out.ok)
  {
  }

  /** The last step closed the AR. */
  predicate Closing(steps: seq<Handled>, m: Apmx) {
    steps != [] && m.apmr == ApmrClosed
  }

  function WireOf(steps: seq<Handled>): seq<Frame> {
    if steps == [] then [] else WireOf(steps[..|steps| - 1]) + steps[|steps| - 1].out.wire
  }

  function UpsOf(steps: seq<Handled>): seq<Up> {
    if steps == [] then [] else UpsOf(steps[..|steps| - 1]) + steps[|steps| - 1].out.ups
  }

  /** What the steps of one priority sent and indicated; the other priority closes with this one and is untouched otherwise. */
  ghost predicate LoggedFor(steps: seq<Handled>, ix: nat, m0: seq<Apmx>, wire0: seq<seq<Frame>>, ups0: seq<seq<Up>>,
                            m: seq<Apmx>, wire: seq<seq<Frame>>, ups: seq<seq<Up>>)
    requires ix < 2 == |m0| == |wire0| == |ups0| == |m| == |wire| == |ups|
  {
    && ups == Logged(ups0, ix, UpsOf(steps))
    && wire[ix] == wire0[ix] + WireOf(steps)
    && (if Closing(steps, m[ix]) then
          var closed := CloseReq(m0[1 - ix], steps[|steps| - 1].env);
          m[1 - ix] == closed.m && wire[1 - ix] == wire0[1 - ix] + closed.wire
        else m[1 - ix] == m0[1 - ix] && wire[1 - ix] == wire0[1 - ix])
  }

  ghost predicate LoggedOne(h: Handled, ix: nat, m1: seq<Apmx>, wire1: seq<seq<Frame>>, ups1: seq<seq<Up>>,
                            m: seq<Apmx>, wire: seq<seq<Frame>>, ups: seq<seq<Up>>)
    requires ix < 2 == |m1| == |wire1| == |ups1| == |m| == |wire| == |ups|
  {
    var closed := CloseReq(m1[1 - ix], h.env);
    && ups == Logged(ups1, ix, h.out.ups)
    && wire[ix] == wire1[ix] + h.out.wire
    && (if m[ix].apmr == ApmrClosed then m[1 - ix] == closed.m && wire[1 - ix] == wire1[1 - ix] + closed.wire
        else m[1 - ix] == m1[1 - ix] && wire[1 - ix] == wire1[1 - ix])
  }

  lemma LogExtends(steps: seq<Handled>, h: Handled, ix: nat, m0: seq<Apmx>, wire0: seq<seq<Frame>>, ups0: seq<seq<Up>>,
                   m1: seq<Apmx>, wire1: seq<seq<Frame>>, ups1: seq<seq<Up>>,
                   m: seq<Apmx>, wire: seq<seq<Frame>>, ups: seq<seq<Up>>)
    requires ix < 2 == |m0| == |wire0| == |ups0| == |m1| == |wire1| == |ups1| == |m| == |wire| == |ups|
    requires LoggedFor(steps, ix, m0, wire0, ups0, m1, wire1, ups1) && !Closing(steps, m1[ix])
    requires LoggedOne(h, ix, m1, wire1, ups1, m, wire, ups)
    ensures LoggedFor(steps + [h], ix, m0, wire0, ups0, m, wire, ups)
  {
    assert (steps + [h])[..|steps|] == steps;
    assert wire0[ix] + WireOf(steps) + h.out.wire == wire0[ix] + (WireOf(steps) + h.out.wire);
    assert ups0[ix] + UpsOf(steps) + h.out.ups == ups0[ix] + (UpsOf(steps) + h.out.ups);
  }

  lemma NothingLogged<T>(log: seq<seq<T>>, ix: nat)
    requires ix < |log|
    ensures Logged(log, ix, []) == log
  {
    assert log[ix] + [] == log[ix];
  }

  function Logged<T>(log: seq<seq<T>>, ix: nat, more: seq<T>): (r: seq<seq<T>>)
    requires ix < |log|
    ensures |r| == |log|
  {
    log[ix := log[ix] + more]
  }

  lemma SavedDropped(s: seq<Option<nat>>, ix: nat)
    requires ix < |s| && s[ix].Some? && forall i :: 0 <= i < |s| && i != ix ==> s[i] != s[ix]
    ensures s[ix].value in SavedBufs(s)
    ensures SavedBufs(s[ix := None]) == SavedBufs(s) - {s[ix].value}
  {
    var s' := s[ix := None];
    forall x | x in SavedBufs(s) && x != s[ix].value
      ensures x in SavedBufs(s')
    {
      var i :| 0 <= i < |s| && s[i].Some? && s[i].value == x;
      assert s'[i].Some?;
    }
  }

  lemma SavedAdded(s: seq<Option<nat>>, ix: nat, b: nat)
    requires ix < |s| && s[ix].None?
    ensures SavedBufs(s[ix := Some(b)]) == SavedBufs(s) + {b}
  {
    var s' := s[ix := Some(b)];
    assert s'[ix].Some?;
    forall x | x in SavedBufs(s)
      ensures x in SavedBufs(s')
    {
      var i :| 0 <= i < |s| && s[i].Some? && s[i].value == x;
      assert s'[i].Some?;
    }
  }
}
