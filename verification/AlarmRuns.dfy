/**
 What one alarm instance does over a whole run, from activation, whatever frames arrive and whichever
 of its timers fire: how often a message is transmitted, when the sender gives up, and how the
 notifications sent relate to the confirmations the user gets.
 */
module AlarmRuns {
  import opened Options
  import opened AlarmMachine

  datatype Sent = Sent(serial: nat, frame: Frame)

  datatype History = History(
    m: Apmx,
    started: nat,     // messages started so far; the last one has this serial number
    attempts: nat,    // transmission attempts for the last one
    log: seq<Sent>,   // DATA frames put on the wire, each with the serial number of its message
    notified: nat,    // notifications reported as sent
    confirmed: nat)   // confirmations given to the user

  datatype Input = Input(e: Event, env: Env)

  function DataFrames(wire: seq<Frame>): seq<Frame> {
    if wire == [] then []
    else (if wire[0].pdu == DataPdu then [wire[0]] else []) + DataFrames(wire[1..])
  }

  function Number(serial: nat, fs: seq<Frame>): seq<Sent> {
    seq(|fs|, i requires 0 <= i < |fs| => Sent(serial, fs[i]))
  }

  function Confirmations(ups: seq<Up>): nat {
    if ups == [] then 0 else (if ups[0].NotificationConfirmed? then 1 else 0) + Confirmations(ups[1..])
  }

  predicate Tries(m: Apmx, x: Input) {
    x.e.EvTimer? && m.apms == ApmsWTack && m.saved.Some? && m.resend > 0
  }

  function After(h: History, x: Input, o: Out): History {
    var serial := if Starts(h.m, x.e) then h.started + 1 else h.started;
    History(o.m, serial,
            if Starts(h.m, x.e) then (if x.env.alloc then 1 else 0)
            else if Tries(h.m, x) then h.attempts + 1 else h.attempts,
            h.log + Number(serial, DataFrames(o.wire)),
            if x.e.EvNotify? && o.ok then h.notified + 1 else h.notified,
            h.confirmed + Confirmations(o.ups))
  }

  function Start(high: bool, retries: nat): History {
    History(Activated(high, retries), 0, 0, [], 0, 0)
  }

  /** A run; an input that is not possible when its turn comes does nothing. */
  function Play(h: History, xs: seq<Input>): History
    decreases |xs|
  {
    if xs == [] then h
    else
      var h1 := if Enabled(h.m, xs[0].e) then After(h, xs[0], Step(h.m, xs[0].e, xs[0].env)) else h;
      Play(h1, xs[1..])
  }

  /** How often the message with this serial number has been put on the wire. */
  function Transmissions(log: seq<Sent>, serial: nat): nat {
    if log == [] then 0
    else Transmissions(log[..|log| - 1], serial) + (if log[|log| - 1].serial == serial then 1 else 0)
  }

  predicate Bounded(h: History, retries: nat) {
    && h.m.retries == retries
    && (forall x <- h.log :: x.serial <= h.started && x.frame.pdu == DataPdu)
    && (forall x, y :: x in h.log && y in h.log && x.serial == y.serial ==> x.frame == y.frame)
    && (h.m.saved.Some? ==>
          && h.m.apms == ApmsWTack && h.m.saved.value.pdu == DataPdu
          && h.attempts + h.m.resend == 1 + retries && h.started > 0
          && (forall x <- h.log :: x.serial == h.started ==> x.frame == h.m.saved.value))
    && Transmissions(h.log, h.started) <= h.attempts <= 1 + retries
  }

  ghost predicate AllBounded(log: seq<Sent>, retries: nat) {
    forall serial: nat :: Transmissions(log, serial) <= 1 + retries
  }

  lemma TransmissionsOne(log: seq<Sent>, x: Sent, serial: nat)
    ensures Transmissions(log + [x], serial) == Transmissions(log, serial) + if x.serial == serial then 1 else 0
  {
    assert (log + [x])[..|log|] == log;
  }

  lemma {:induction false} NoneAbove(log: seq<Sent>, serial: nat)
    requires forall x <- log :: x.serial < serial
    ensures Transmissions(log, serial) == 0
  {
    if log != [] {
      NoneAbove(log[..|log| - 1], serial);
      assert log[|log| - 1] in log;
    }
  }

  /** The DATA frames of one step: the new message, the saved one again, or none. */
  predicate OneStep(m: Apmx, x: Input, o: Out) {
    var d := DataFrames(o.wire);
    && o.m.retries == m.retries
    && (Starts(m, x.e) ==>
          && (d == [] || (x.env.alloc && d == [NewFrame(m, x.e)]))
          && (m.saved.None? ==> o.m.saved == if x.env.alloc then Some(NewFrame(m, x.e)) else None)
          && o.m.resend == m.retries && o.m.apms == ApmsWTack)
    && (Tries(m, x) ==>
          && (d == [] || d == [m.saved.value])
          && o.m.saved == m.saved && o.m.resend == m.resend - 1 && o.m.apms == m.apms)
    && (!Starts(m, x.e) && !Tries(m, x) ==>
          d == [] && (o.m.saved.None? || (o.m.saved == m.saved && o.m.resend == m.resend && o.m.apms == m.apms)))
  }

  lemma NoData(wire: seq<Frame>)
    requires forall f <- wire :: f.pdu != DataPdu
    ensures DataFrames(wire) == []
  {
  }

  lemma ReceiveIsOneStep(m: Apmx, f: Frame, env: Env)
    ensures OneStep(m, Input(EvReceive(f), env), Receive(m, f, env))
  {
    ReceiveShape(m, f, env);
    ReceiveKeepsResend(m, f, env);
    NoData(Receive(m, f, env).wire);
  }

  lemma ReceiveKeepsResend(m: Apmx, f: Frame, env: Env)
    ensures Receive(m, f, env).m.resend == m.resend
    ensures Receive(m, f, env).m.saved.Some? ==> Receive(m, f, env).m.apms == m.apms
  {
    if Accepts(m, f) {
      AcceptKeepsResend(m, f, env);
    }
  }

  lemma AcceptKeepsResend(m: Apmx, f: Frame, env: Env)
    requires Accepts(m, f)
    ensures Accept(m, f, env).m.resend == m.resend
    ensures Accept(m, f, env).m.saved.Some? ==> Accept(m, f, env).m.apms == m.apms
  {
  }

  lemma StepIsOneStep(m: Apmx, x: Input)
    requires Enabled(m, x.e)
    ensures OneStep(m, x, Step(m, x.e, x.env))
  {
    if x.e.EvReceive? {
      ReceiveIsOneStep(m, x.e.frame, x.env);
    } else if x.e.EvTimer? {
      TimerIsOneStep(m, x);
    }
  }

  lemma TimerIsOneStep(m: Apmx, x: Input)
    requires Enabled(m, x.e) && x.e.EvTimer?
    ensures OneStep(m, x, Step(m, x.e, x.env))
  {
  }

  lemma StepKeepsBounded(h: History, x: Input, o: Out, retries: nat)
    requires Bounded(h, retries) && AllBounded(h.log, retries)
    requires OneStep(h.m, x, o)
    ensures Bounded(After(h, x, o), retries) && AllBounded(After(h, x, o).log, retries)
  {
    var h' := After(h, x, o);
    var d := DataFrames(o.wire);
    if Starts(h.m, x.e) {
      NoneAbove(h.log, h'.started);
    }
    if d == [] {
      assert h'.log == h.log;
    } else {
      var y := Sent(h'.started, d[0]);
      assert h'.log == h.log + [y];
      TransmissionsOne(h.log, y, h'.started);
      forall serial: nat
        ensures Transmissions(h'.log, serial) <= 1 + retries
      {
        TransmissionsOne(h.log, y, serial);
      }
    }
  }

  lemma {:induction false} PlayKeepsBounded(h: History, xs: seq<Input>, retries: nat)
    requires Bounded(h, retries) && AllBounded(h.log, retries)
    ensures Bounded(Play(h, xs), retries) && AllBounded(Play(h, xs).log, retries)
    decreases |xs|
  {
    if xs != [] {
      if Enabled(h.m, xs[0].e) {
        StepIsOneStep(h.m, xs[0]);
        StepKeepsBounded(h, xs[0], Step(h.m, xs[0].e, xs[0].env), retries);
        PlayKeepsBounded(After(h, xs[0], Step(h.m, xs[0].e, xs[0].env)), xs[1..], retries);
      } else {
        PlayKeepsBounded(h, xs[1..], retries);
      }
    }
  }

  /** Every message is on the wire at most 1 + rta_retries times, always as the identical frame. */
  lemma BoundedRetransmission(high: bool, retries: nat, xs: seq<Input>)
    ensures var log := Play(Start(high, retries), xs).log;
      && (forall serial: nat :: Transmissions(log, serial) <= 1 + retries)
      && (forall x, y :: x in log && y in log && x.serial == y.serial ==> x.frame == y.frame)
  {
    PlayKeepsBounded(Start(high, retries), xs, retries);
  }

  /** A timer makes the sender give up exactly when the message is unconfirmed and the counter is spent: then all 1 + rta_retries attempts were made. */
  lemma GivesUpOnlyWhenExhausted(high: bool, retries: nat, xs: seq<Input>, env: Env)
    requires Play(Start(high, retries), xs).m.timers > 0
    ensures var h := Play(Start(high, retries), xs);
      && (Aborted in Timeout(h.m, env).ups <==> h.m.apms == ApmsWTack && h.m.saved.Some? && h.m.resend == 0)
      && (Aborted in Timeout(h.m, env).ups ==> h.attempts == 1 + retries)
  {
    PlayKeepsBounded(Start(high, retries), xs, retries);
  }

  // ---------------------------------------------------------------------------------------------

  predicate Outstanding(h: History) {
    match h.m.alpmi
    case AlpmiWStart => h.confirmed <= h.notified <= h.confirmed + 1
    case AlpmiWAlarm => h.notified == h.confirmed
    case AlpmiWAck => h.notified == h.confirmed + 1
  }

  lemma ConfirmationsJoin(a: seq<Up>, b: seq<Up>)
    ensures Confirmations(a + b) == Confirmations(a) + Confirmations(b)
  {
    if a == [] {
      assert a + b == b;
    } else {
      assert (a + b)[1..] == a[1..] + b;
      ConfirmationsJoin(a[1..], b);
    }
  }

  /** What a step does to ALPMI, and the confirmations it gives. */
  predicate AlpmiShape(m: Apmx, o: Out) {
    || (o.m.alpmi == m.alpmi && Confirmations(o.ups) == 0)
    || (o.m.alpmi == AlpmiWStart && Confirmations(o.ups) == 0)
    || (m.alpmi == AlpmiWAck && o.m.alpmi == AlpmiWAlarm && Confirmations(o.ups) == 1)
  }

  lemma DeliverAlpmiShape(m: Apmx, body: Body, env: Env)
    ensures AlpmiShape(m, Deliver(m, body, env))
  {
  }

  lemma AcceptAlpmiShape(m: Apmx, f: Frame, env: Env)
    ensures AlpmiShape(m, Accept(m, f, env))
  {
    var a := AckInd(m, f);
    var m1 := a.m.(expO := a.m.exp, exp := NextSeq(a.m.exp), apmr := ApmrWCnf);
    DeliverAlpmiShape(m1, f.body, env);
    ConfirmationsJoin(a.ups, Deliver(m1, f.body, env).ups);
  }

  lemma ReceiveAlpmiShape(m: Apmx, f: Frame, env: Env)
    ensures AlpmiShape(m, Receive(m, f, env))
  {
    if Accepts(m, f) {
      AcceptAlpmiShape(m, f, env);
    }
  }

  lemma StepKeepsOutstanding(h: History, x: Input)
    requires Outstanding(h) && Enabled(h.m, x.e)
    ensures Outstanding(After(h, x, Step(h.m, x.e, x.env)))
  {
    match x.e
    case EvReceive(f) => ReceiveAlpmiShape(h.m, f, x.env);
    case EvNotify(_) =>
    case EvUserAck(_) =>
    case EvTimer =>
    case EvClose =>
  }

  lemma {:induction false} PlayKeepsOutstanding(h: History, xs: seq<Input>)
    requires Outstanding(h)
    ensures Outstanding(Play(h, xs))
    decreases |xs|
  {
    if xs != [] {
      if Enabled(h.m, xs[0].e) {
        StepKeepsOutstanding(h, xs[0]);
        PlayKeepsOutstanding(After(h, xs[0], Step(h.m, xs[0].e, xs[0].env)), xs[1..]);
      } else {
        PlayKeepsOutstanding(h, xs[1..]);
      }
    }
  }

  /** Until the instance closes, notifications sent minus confirmations is 1 while ALPMI waits for the acknowledgement and 0 otherwise. */
  lemma OneNotificationOutstanding(high: bool, retries: nat, xs: seq<Input>)
    ensures var h := Play(Start(high, retries), xs);
      h.m.alpmi != AlpmiWStart ==> h.notified == h.confirmed + if h.m.alpmi == AlpmiWAck then 1 else 0
  {
    PlayKeepsOutstanding(Start(high, retries), xs);
  }

  // ---------------------------------------------------------------------------------------------

  /** APMS waits for a TACK that cannot come: no frame was saved because no buffer was free. */
  predicate Stalled(m: Apmx) {
    m.apms == ApmsWTack && m.saved.None?
  }

  /** A message that is started with nothing saved stalls APMS if and only if no buffer can be allocated for it. */
  lemma AllocationFailureStalls(m: Apmx, e: Event, env: Env)
    requires Enabled(m, e) && Starts(m, e) && m.saved.None?
    ensures Stalled(Step(m, e, env).m) <==> !env.alloc
    ensures Stalled(Step(m, e, env).m) ==> Step(m, e, env).wire == []
  {
  }

  /**
   A sender that waits and has not stalled retransmits until the counter is spent and then gives up: at exactly the
   (resend + 1)-th timer event, if the timer can be started again each time.
   */
  lemma {:induction false} RetriesThenGivesUp(h: History, xs: seq<Input>)
    requires h.m.apms == ApmsWTack && h.m.saved.Some? && h.m.timers > 0
    requires (forall x <- xs :: x.e.EvTimer? && x.env.timer) && |xs| <= h.m.resend + 1
    ensures var m := Play(h, xs).m;
      if |xs| <= h.m.resend
      then m.apms == ApmsWTack && m.saved == h.m.saved && m.resend == h.m.resend - |xs| && m.timers == h.m.timers
      else m.apms == ApmsClosed && m.apmr == ApmrClosed
    decreases |xs|
  {
    if xs != [] {
      assert xs[0] in xs && forall x <- xs[1..] :: x in xs;
      if h.m.resend > 0 {
        RetriesThenGivesUp(After(h, xs[0], Step(h.m, xs[0].e, xs[0].env)), xs[1..]);
      } else {
        assert xs[1..] == [];
      }
    }
  }

  /** However often its timers fire, a stalled APMS sends nothing more and never reports a failure. */
  lemma {:induction false} TimersNeverEndStall(h: History, xs: seq<Input>)
    requires Stalled(h.m) && forall x <- xs :: x.e.EvTimer?
    ensures Stalled(Play(h, xs).m) && Play(h, xs).log == h.log && Play(h, xs).m.alpmi == h.m.alpmi
    decreases |xs|
  {
    if xs != [] {
      assert forall x <- xs[1..] :: x in xs;
      if Enabled(h.m, xs[0].e) {
        var h1 := After(h, xs[0], Step(h.m, xs[0].e, xs[0].env));
        assert h1.log == h.log;
        TimersNeverEndStall(h1, xs[1..]);
      } else {
        TimersNeverEndStall(h, xs[1..]);
      }
    }
  }

  // ---------------------------------------------------------------------------------------------

  /** A frame leaves an open APMR in WCNF if and only if it is accepted and answered, and its notification does not parse. */
  lemma BlockedExactly(m: Apmx, f: Frame, env: Env)
    requires m.apmr == ApmrOpen
    ensures Receive(m, f, env).m.apmr == ApmrWCnf <==>
      Accepts(m, f) && env.alloc && env.sent && f.body.Notification? && !f.body.wellFormed
  {
  }

  /** There APMR stays until the AR closes, whatever happens: it accepts nothing more, and every DATA frame is refused. */
  lemma {:induction false} BlockedUntilClosed(h: History, xs: seq<Input>, f: Frame, env: Env)
    requires h.m.apmr == ApmrWCnf
    ensures var m := Play(h, xs).m;
      && (m.apmr == ApmrWCnf || m.apmr == ApmrClosed) && m.exp == h.m.exp && m.expO == h.m.expO
      && (m.apmr == ApmrWCnf && f.version == 1 && f.pdu == DataPdu ==>
            Receive(m, f, env) == Out(m, [], [], false))
    decreases |xs|
  {
    if xs != [] {
      if Enabled(h.m, xs[0].e) {
        var h1 := After(h, xs[0], Step(h.m, xs[0].e, xs[0].env));
        BlockedStep(h.m, xs[0]);
        if h1.m.apmr == ApmrWCnf {
          BlockedUntilClosed(h1, xs[1..], f, env);
        } else {
          StaysClosed(h1, xs[1..]);
        }
      } else {
        BlockedUntilClosed(h, xs[1..], f, env);
      }
    }
  }

  lemma BlockedStep(m: Apmx, x: Input)
    requires m.apmr == ApmrWCnf && Enabled(m, x.e)
    ensures var m' := Step(m, x.e, x.env).m;
      (m'.apmr == ApmrWCnf || m'.apmr == ApmrClosed) && m'.exp == m.exp && m'.expO == m.expO
  {
  }

  lemma {:induction false} StaysClosed(h: History, xs: seq<Input>)
    requires h.m.apmr == ApmrClosed
    ensures Play(h, xs).m.apmr == ApmrClosed && Play(h, xs).m.exp == h.m.exp && Play(h, xs).m.expO == h.m.expO
    decreases |xs|
  {
    if xs != [] {
      if Enabled(h.m, xs[0].e) {
        StaysClosed(After(h, xs[0], Step(h.m, xs[0].e, xs[0].env)), xs[1..]);
      } else {
        StaysClosed(h, xs[1..]);
      }
    }
  }
}
