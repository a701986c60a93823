/**
 Both priorities of an AR together, as far as the application's acknowledgement goes: pf_alarm_alpmr_alarm_ack takes it
 to the high priority, whichever priority the notification had.
 */
module AlarmPriorities {
  import opened AlarmMachine

  datatype Ar = Ar(low: Apmx, high: Apmx)

  /** What can happen to an AR: an event of one priority, or an acknowledgement by the application. */
  datatype Input =
    | Event(high: bool, e: AlarmMachine.Event, env: Env)
    | Acknowledge(status: int, env: Env)

  function Get(ar: Ar, high: bool): Apmx {
    if high then ar.high else ar.low
  }

  predicate Possible(ar: Ar, x: Input) {
    x.Event? ==> !x.e.EvUserAck? && Enabled(Get(ar, x.high), x.e)
  }

  /** One priority has made a step; an abort and a close reach the other one. */
  function With(ar: Ar, high: bool, o: Out, closes: bool, env: Env): Ar {
    var other := Get(ar, !high);
    var other' := if closes || Aborted in o.ups then CloseReq(other, env).m else other;
    if high then Ar(other', o.m) else Ar(o.m, other')
  }

  function Step(ar: Ar, x: Input): Ar
    requires Possible(ar, x)
  {
    match x
    case Event(high, e, env) => With(ar, high, AlarmMachine.Step(Get(ar, high), e, env), e.EvClose?, env)
    case Acknowledge(status, env) => With(ar, true, UserAck(ar.high, status, env), false, env)
  }

  /** Any sequence of inputs; one that is not possible when its turn comes does nothing. */
  function Play(ar: Ar, xs: seq<Input>): Ar
    decreases |xs|
  {
    if xs == [] then ar else Play(if Possible(ar, xs[0]) then Step(ar, xs[0]) else ar, xs[1..])
  }

  /** ALPMR has indicated a notification that has not been acknowledged. */
  predicate Unacknowledged(m: Apmx) {
    m.alpmr == AlpmrWUserAck && m.apmr != ApmrClosed
  }

  predicate Closed(m: Apmx) {
    m.apmr == ApmrClosed
  }

  /** The acknowledgement has been passed to APMS. */
  predicate Acknowledged(m: Apmx) {
    m.alpmr != AlpmrWUserAck && m.apmr != ApmrClosed
  }

  lemma LowStep(m: Apmx, e: AlarmMachine.Event, env: Env)
    requires Enabled(m, e) && !e.EvUserAck? && (Unacknowledged(m) || Closed(m))
    ensures var m' := AlarmMachine.Step(m, e, env).m; Unacknowledged(m') || Closed(m')
  {
    if e.EvReceive? && Accepts(m, e.frame) {
      assert AckInd(m, e.frame).m.alpmr == AlpmrWUserAck;
    }
  }

  /** Whatever the application and the peer do, a low priority notification is not acknowledged. */
  lemma {:induction false} LowStays(ar: Ar, xs: seq<Input>)
    requires Unacknowledged(ar.low) || Closed(ar.low)
    ensures var m := Play(ar, xs).low; Unacknowledged(m) || Closed(m)
    decreases |xs|
  {
    if xs != [] {
      if Possible(ar, xs[0]) {
        if xs[0].Event? && !xs[0].high {
          LowStep(ar.low, xs[0].e, xs[0].env);
        }
        LowStays(Step(ar, xs[0]), xs[1..]);
      } else {
        LowStays(ar, xs[1..]);
      }
    }
  }

  const OK := Env(true, true, true, true)

  /** For the high priority: the TACK that APMS may be waiting for, and the acknowledgement. */
  function AckRun(m: Apmx): seq<Input> {
    (if m.apms == ApmsOpen then [] else [Event(true, EvReceive(Frame(1, AckPdu, false, 0, m.send, 0, NoBody)), OK)])
    + [Acknowledge(0, OK)]
  }

  lemma HighIsAcknowledged(ar: Ar)
    requires Unacknowledged(ar.high) && ar.high.apms != ApmsClosed
    ensures Acknowledged(Play(ar, AckRun(ar.high)).high)
  {
    var ack := Acknowledge(0, OK);
    if ar.high.apms == ApmsOpen {
      assert AckRun(ar.high) == [ack] + [];
      PlayOne(ar, ack, []);
    } else {
      var tack := Event(true, EvReceive(Frame(1, AckPdu, false, 0, ar.high.send, 0, NoBody)), OK);
      var ar1 := Step(ar, tack);
      assert ar1.high.apms == ApmsOpen && Unacknowledged(ar1.high);
      assert AckRun(ar.high) == [tack] + ([ack] + []);
      PlayOne(ar, tack, [ack] + []);
      PlayOne(ar1, ack, []);
    }
  }

  lemma PlayOne(ar: Ar, x: Input, rest: seq<Input>)
    requires Possible(ar, x)
    ensures Play(ar, [x] + rest) == Play(Step(ar, x), rest)
  {
    assert ([x] + rest)[1..] == rest;
  }

  predicate AcknowledgedBy(ar: Ar, xs: seq<Input>, high: bool) {
    Acknowledged(Get(Play(ar, xs), high))
  }

  /** A notification that has been indicated can be acknowledged if and only if it has high priority. */
  lemma AcknowledgedOnlyIfHigh(ar: Ar, high: bool)
    requires Unacknowledged(Get(ar, high)) && Get(ar, high).apms != ApmsClosed
    ensures (exists xs :: AcknowledgedBy(ar, xs, high)) <==> high
  {
    if high {
      HighIsAcknowledged(ar);
      assert AcknowledgedBy(ar, AckRun(ar.high), high);
    } else {
      forall xs
        ensures !AcknowledgedBy(ar, xs, high)
      {
        LowStays(ar, xs);
      }
    }
  }

  /**
   So after any run the next low priority notification aborts the AR, closing both priorities, unless the AR has been
   closed before; if its TACK can be sent.
   */
  lemma NextLowNotificationAborts(ar: Ar, xs: seq<Input>, f: Frame)
    requires Unacknowledged(ar.low)
    requires Accepts(Play(ar, xs).low, f) && f.body.Notification? && f.body.wellFormed
    ensures var r := Play(ar, xs); var x := Event(false, EvReceive(f), OK);
      && Possible(r, x) && Closed(Step(r, x).low) && Closed(Step(r, x).high)
  {
    LowStays(ar, xs);
    var m := Play(ar, xs).low;
    assert AckInd(m, f).m.alpmr == AlpmrWUserAck;
  }
}
