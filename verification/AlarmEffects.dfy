/**
 What every event of an alarm instance gives to the layer above and puts on the wire, and what becomes of ALPMI and ALPMR,
 in src/common/pf_alarm.c: stated outright, each as a condition on the state, the event and the frame.
 */
module AlarmEffects {
  import opened Options
  import opened AlarmMachine

  /** The frame is accepted, and its TACK can be sent: only then its body goes up. */
  predicate Answered(m: Apmx, f: Frame, env: Env) {
    Accepts(m, f) && env.alloc && env.sent
  }

  /** ALPMR waits for a notification, or the frame is also the TACK for its acknowledgement. */
  predicate Awaits(m: Apmx, f: Frame) {
    m.alpmr == AlpmrWNotify || (m.alpmr == AlpmrWTack && Confirms(m, f))
  }

  /** The frame aborts for what it is: an ERR frame, or the expected number with a body of an unknown kind. */
  predicate Kills(m: Apmx, f: Frame) {
    f.version == 1 &&
    (|| (f.pdu == ErrPdu && f.varLen == 4)
     || (f.pdu == DataPdu && m.apmr == ApmrOpen && f.tack && f.sendSeq == m.exp && !f.body.AlarmAck? && !f.body.Notification?))
  }

  /** A notification that arrives while the one before it is not done with. */
  predicate Intrudes(m: Apmx, f: Frame, env: Env) {
    && Answered(m, f, env) && f.body.Notification? && f.body.wellFormed
    && m.alpmr != AlpmrWStart && !Awaits(m, f)
  }

  predicate Indicates(m: Apmx, f: Frame, env: Env, data: int) {
    Answered(m, f, env) && f.body == Notification(data, true) && Awaits(m, f)
  }

  predicate ConfirmsNotification(m: Apmx, f: Frame, env: Env, status: int) {
    Answered(m, f, env) && f.body == AlarmAck(status) && m.alpmi == AlpmiWAck
  }

  predicate ConfirmsAck(m: Apmx, f: Frame) {
    Confirms(m, f) && m.alpmr == AlpmrWTack
  }

  function One<T>(b: bool, x: T): seq<T> {
    if b then [x] else []
  }

  /** What the body of a frame tells the layer above. */
  function BodyUps(m: Apmx, f: Frame, env: Env): seq<Up> {
    match f.body
    case Notification(data, _) => One(Indicates(m, f, env, data), NotificationIndicated(data))
    case AlarmAck(status) => One(ConfirmsNotification(m, f, env, status), NotificationConfirmed(status))
    case _ => []
  }

  /** All that a received frame gives to the layer above, in order. */
  lemma UpsExactly(m: Apmx, f: Frame, env: Env)
    ensures Receive(m, f, env).ups ==
      One(ConfirmsAck(m, f), AckConfirmed)
      + BodyUps(m, f, env)
      + One(Kills(m, f) || Intrudes(m, f, env), Aborted)
  {
    if Accepts(m, f) {
      AcceptUps(m, f, env);
    }
  }

  lemma AcceptUps(m: Apmx, f: Frame, env: Env)
    requires Accepts(m, f)
    ensures Accept(m, f, env).ups ==
      One(ConfirmsAck(m, f), AckConfirmed)
      + BodyUps(m, f, env)
      + One(Intrudes(m, f, env), Aborted)
  {
  }

  function Times(ups: seq<Up>, u: Up): nat {
    multiset(ups)[u]
  }

  lemma TimesJoin(a: seq<Up>, b: seq<Up>, c: seq<Up>, u: Up)
    ensures Times(a + b + c, u) == Times(a, u) + Times(b, u) + Times(c, u)
  {
  }

  lemma TimesInBody(m: Apmx, f: Frame, env: Env, data: int, status: int)
    ensures Times(BodyUps(m, f, env), NotificationIndicated(data)) == (if Indicates(m, f, env, data) then 1 else 0)
    ensures Times(BodyUps(m, f, env), NotificationConfirmed(status)) == (if ConfirmsNotification(m, f, env, status) then 1 else 0)
    ensures Times(BodyUps(m, f, env), AckConfirmed) == 0 && Times(BodyUps(m, f, env), Aborted) == 0
  {
  }

  lemma TimesOfUps(m: Apmx, f: Frame, env: Env, u: Up)
    ensures Times(Receive(m, f, env).ups, u) ==
      Times(One(ConfirmsAck(m, f), AckConfirmed), u) + Times(BodyUps(m, f, env), u)
      + Times(One(Kills(m, f) || Intrudes(m, f, env), Aborted), u)
  {
    UpsExactly(m, f, env);
    TimesJoin(One(ConfirmsAck(m, f), AckConfirmed), BodyUps(m, f, env), One(Kills(m, f) || Intrudes(m, f, env), Aborted), u);
  }

  /**
   The application is told of a notification once, and with the data of the frame, if and only if the frame is accepted, its TACK
   can be sent, the notification parses and ALPMR waits for one; otherwise never. The other indications likewise.
   */
  lemma ToldExactly(m: Apmx, f: Frame, env: Env, data: int, status: int)
    ensures var ups := Receive(m, f, env).ups;
      && Times(ups, NotificationIndicated(data)) == (if Indicates(m, f, env, data) then 1 else 0)
      && Times(ups, NotificationConfirmed(status)) == (if ConfirmsNotification(m, f, env, status) then 1 else 0)
      && Times(ups, AckConfirmed) == (if ConfirmsAck(m, f) then 1 else 0)
      && Times(ups, Aborted) == (if Kills(m, f) || Intrudes(m, f, env) then 1 else 0)
  {
    TimesInBody(m, f, env, data, status);
    TimesOfUps(m, f, env, NotificationIndicated(data));
    TimesOfUps(m, f, env, NotificationConfirmed(status));
    TimesOfUps(m, f, env, AckConfirmed);
    TimesOfUps(m, f, env, Aborted);
  }

  // ---------------------------------------------------------------------------------------------
  // The wire

  /** The answer to a DATA frame: TACK or NACK, with the counters as they are after it. */
  function Answer(m: Apmx, f: Frame, pdu: PduType): Frame {
    Frame(1, pdu, false, if Confirms(m, f) then m.send else m.sendO, if Accepts(m, f) then m.exp else m.expO, 0, NoBody)
  }

  predicate IsData(m: Apmx, f: Frame) {
    f.version == 1 && f.pdu == DataPdu && f.tack && m.apmr == ApmrOpen
  }

  /** The TACK for a new message, or for the last one again. */
  predicate Tacked(m: Apmx, f: Frame, env: Env) {
    && (Accepts(m, f) || (IsData(m, f) && f.sendSeq != m.exp && f.sendSeq == m.expO)) && env.alloc && env.sent
  }

  predicate Nacked(m: Apmx, f: Frame, env: Env) {
    IsData(m, f) && f.sendSeq != m.exp && f.sendSeq != m.expO && env.alloc && env.sent
  }

  /** The ERR frame with which an abort closes the low priority. */
  function ErrFrame(m: Apmx): Frame {
    Frame(1, ErrPdu, false, m.send, m.expO, 4, Status(0))
  }

  predicate SendsErr(m: Apmx, env: Env) {
    !m.high && m.apms != ApmsClosed && env.errSent
  }

  /** The counters of the instance when a frame has been looked at. */
  function Seen(m: Apmx, f: Frame): Apmx {
    m.(send := if Confirms(m, f) then NextSeq(m.send) else m.send, expO := if Accepts(m, f) then m.exp else m.expO)
  }

  /** All that a received frame makes the instance send, in order. */
  lemma WireExactly(m: Apmx, f: Frame, env: Env)
    ensures Receive(m, f, env).wire ==
      One(Tacked(m, f, env), Answer(m, f, AckPdu))
      + One(Nacked(m, f, env), Answer(m, f, NackPdu))
      + One((Kills(m, f) || Intrudes(m, f, env)) && SendsErr(m, env), ErrFrame(Seen(m, f)))
  {
    if Accepts(m, f) {
      AcceptWire(m, f, env);
    }
  }

  lemma AcceptWire(m: Apmx, f: Frame, env: Env)
    requires Accepts(m, f)
    ensures Accept(m, f, env).wire ==
      One(Tacked(m, f, env), Answer(m, f, AckPdu))
      + One(Intrudes(m, f, env) && SendsErr(m, env), ErrFrame(Seen(m, f)))
  {
  }

  /** What the other events send: a new message, the saved one again, or the ERR frame of an abort. */
  lemma WireOfLocalEvent(m: Apmx, e: Event, env: Env)
    requires Enabled(m, e) && !e.EvReceive?
    ensures Step(m, e, env).wire ==
      One(Starts(m, e) && env.alloc && env.sent, NewFrame(m, e))
      + (if Resends(m, e) && env.sent then [m.saved.value] else [])
      + One((Breaks(m, e) || e.EvClose?) && SendsErr(m, env), ErrFrame(m))
  {
  }

  /** A timer while the message is unconfirmed, saved, and may be sent again. */
  predicate Resends(m: Apmx, e: Event) {
    e.EvTimer? && m.apms == ApmsWTack && m.saved.Some? && m.resend > 0
  }

  /** The last timer of a message, or a request while APMS is not open. */
  predicate Breaks(m: Apmx, e: Event) {
    || (e.EvTimer? && m.apms == ApmsWTack && m.saved.Some? && m.resend == 0)
    || (RequestsData(m, e) && m.apms != ApmsOpen)
  }

  /** Apart from received frames, only these tell the layer above something: that the AR is aborted. */
  lemma UpsOfLocalEvent(m: Apmx, e: Event, env: Env)
    requires Enabled(m, e) && !e.EvReceive?
    ensures Step(m, e, env).ups == One(Breaks(m, e), Aborted)
  {
  }

  // ---------------------------------------------------------------------------------------------
  // The states

  predicate IsClosed(m: Apmx) {
    m.apms == ApmsClosed && m.apmr == ApmrClosed && m.alpmi == AlpmiWStart && m.saved.None?
  }

  /** A received frame closes an instance that was not closed if and only if it kills or intrudes. */
  lemma ClosesExactly(m: Apmx, f: Frame, env: Env)
    requires m.apms != ApmsClosed && m.apmr != ApmrClosed
    ensures IsClosed(Receive(m, f, env).m) <==> Kills(m, f) || Intrudes(m, f, env)
    ensures Receive(m, f, env).m.apmr == ApmrClosed <==> Kills(m, f) || Intrudes(m, f, env)
    ensures Receive(m, f, env).m.apms == ApmsClosed <==> Kills(m, f) || Intrudes(m, f, env)
    ensures Kills(m, f) || Intrudes(m, f, env) ==> Receive(m, f, env).m.alpmr == AlpmrWStart
  {
    if Accepts(m, f) {
      AcceptCloses(m, f, env);
    }
  }

  lemma AcceptCloses(m: Apmx, f: Frame, env: Env)
    requires Accepts(m, f) && m.apms != ApmsClosed
    ensures IsClosed(Accept(m, f, env).m) <==> Intrudes(m, f, env)
    ensures Accept(m, f, env).m.apmr == ApmrClosed <==> Intrudes(m, f, env)
    ensures Accept(m, f, env).m.apms == ApmsClosed <==> Intrudes(m, f, env)
    ensures Intrudes(m, f, env) ==> Accept(m, f, env).m.alpmr == AlpmrWStart
  {
  }

  /** So does an abort, and pf_alarm_close. After an acknowledgement that aborts, ALPMR still waits for its TACK. */
  lemma LocalEventCloses(m: Apmx, e: Event, env: Env)
    requires Enabled(m, e) && !e.EvReceive? && m.apms != ApmsClosed
    ensures Step(m, e, env).m.apms == ApmsClosed <==> Breaks(m, e) || e.EvClose?
    ensures Breaks(m, e) || e.EvClose? ==>
      IsClosed(Step(m, e, env).m) && Step(m, e, env).m.alpmr == if e.EvUserAck? then AlpmrWTack else AlpmrWStart
  {
  }

  /** What becomes of ALPMI and ALPMR while the instance stays open. */
  function NextAlpmi(m: Apmx, e: Event, env: Env): AlpmiState {
    if e.EvNotify? && Starts(m, e) && !Fails(m, e, env) then AlpmiWAck
    else if e.EvReceive? && HandsUp(m, e.frame, env) && e.frame.body.AlarmAck? then AlpmiWAlarm
    else m.alpmi
  }

  function NextAlpmr(m: Apmx, e: Event, env: Env): AlpmrState {
    if e.EvUserAck? && Starts(m, e) then AlpmrWTack
    else if e.EvReceive? && HandsUp(m, e.frame, env) && e.frame.body.Notification? then AlpmrWUserAck
    else if e.EvReceive? && ConfirmsAck(m, e.frame) then AlpmrWNotify
    else m.alpmr
  }

  lemma NextStatesExactly(m: Apmx, e: Event, env: Env)
    requires Enabled(m, e) && Step(m, e, env).m.apms != ApmsClosed
    ensures Step(m, e, env).m.alpmi == NextAlpmi(m, e, env)
    ensures Step(m, e, env).m.alpmr == NextAlpmr(m, e, env)
  {
    if !e.EvReceive? {
      LocalStates(m, e, env);
    } else if Accepts(m, e.frame) {
      AcceptStates(m, e.frame, env);
    } else {
      OtherStates(m, e.frame, env);
    }
  }

  lemma LocalStates(m: Apmx, e: Event, env: Env)
    requires Enabled(m, e) && !e.EvReceive? && Step(m, e, env).m.apms != ApmsClosed
    ensures Step(m, e, env).m.alpmi == NextAlpmi(m, e, env)
    ensures Step(m, e, env).m.alpmr == NextAlpmr(m, e, env)
  {
    match e {
      case EvNotify(data) => NotifyStates(m, data, env);
      case _ =>
    }
  }

  lemma NotifyStates(m: Apmx, data: int, env: Env)
    requires m.alpmi == AlpmiWAlarm && Notify(m, data, env).m.apms != ApmsClosed
    ensures Notify(m, data, env).m.alpmi == NextAlpmi(m, EvNotify(data), env)
    ensures Notify(m, data, env).m.alpmr == m.alpmr
  {
  }

  lemma OtherStates(m: Apmx, f: Frame, env: Env)
    requires !Accepts(m, f) && Receive(m, f, env).m.apms != ApmsClosed
    ensures Receive(m, f, env).m.alpmi == m.alpmi
    ensures Receive(m, f, env).m.alpmr == if ConfirmsAck(m, f) then AlpmrWNotify else m.alpmr
  {
  }

  lemma AckStates(m: Apmx, f: Frame)
    requires Accepts(m, f)
    ensures AckInd(m, f).m.alpmi == m.alpmi
    ensures AckInd(m, f).m.alpmr == if ConfirmsAck(m, f) then AlpmrWNotify else m.alpmr
  {
  }

  lemma DeliverStates(m: Apmx, body: Body, env: Env)
    requires Deliver(m, body, env).m.apms != ApmsClosed
    ensures Deliver(m, body, env).m.alpmi == if body.AlarmAck? && m.alpmi == AlpmiWAck then AlpmiWAlarm else m.alpmi
    ensures Deliver(m, body, env).m.alpmr ==
      if body.Notification? && body.wellFormed && m.alpmr == AlpmrWNotify then AlpmrWUserAck else m.alpmr
  {
  }

  lemma AcceptStates(m: Apmx, f: Frame, env: Env)
    requires Accepts(m, f) && Accept(m, f, env).m.apms != ApmsClosed
    ensures Accept(m, f, env).m.alpmi == NextAlpmi(m, EvReceive(f), env)
    ensures Accept(m, f, env).m.alpmr == NextAlpmr(m, EvReceive(f), env)
  {
    AckStates(m, f);
    var a := AckInd(m, f).m;
    if env.alloc && env.sent {
      DeliverStates(a.(expO := a.exp, exp := NextSeq(a.exp), apmr := ApmrWCnf), f.body, env);
    }
  }

  /** The instance is closed by this event. */
  predicate Closes(m: Apmx, e: Event, env: Env) {
    match e
    case EvReceive(f) => Kills(m, f) || Intrudes(m, f, env)
    case EvClose => true
    case _ => Breaks(m, e)
  }

  /** The message started now is kept for retransmission, unless there is one already; the TACK or a late timer drops it. */
  function NextSaved(m: Apmx, e: Event, env: Env): Option<Frame> {
    if Closes(m, e, env) || (e.EvReceive? && Confirms(m, e.frame)) || (e.EvTimer? && m.apms != ApmsWTack) then None
    else if Starts(m, e) && env.alloc && m.saved.None? then Some(NewFrame(m, e))
    else m.saved
  }

  /** A timer runs for every message that is sent and could be timed; closing stops the one that the handle knows. */
  function NextTimers(m: Apmx, e: Event, env: Env): int {
    m.timers
    + (if (Starts(m, e) || Resends(m, e)) && env.timer then 1 else 0)
    - (if e.EvTimer? then 1 else 0)
    - (if Closes(m, e, env) && !e.EvTimer? && m.apms != ApmsClosed && m.handle && m.timers > 0 then 1 else 0)
  }

  predicate NextHandle(m: Apmx, e: Event, env: Env) {
    if Starts(m, e) || Resends(m, e) then env.timer
    else m.handle && !e.EvTimer? && !(Closes(m, e, env) && m.apms != ApmsClosed)
  }

  function NextResend(m: Apmx, e: Event): int {
    if Starts(m, e) then m.retries else if Resends(m, e) then m.resend - 1 else m.resend
  }

  ghost predicate TransportIs(m: Apmx, e: Event, env: Env, m': Apmx) {
    && m'.saved == NextSaved(m, e, env) && m'.timers == NextTimers(m, e, env) && m'.handle == NextHandle(m, e, env)
    && m'.resend == NextResend(m, e)
  }

  lemma TransportExactly(m: Apmx, e: Event, env: Env)
    requires Enabled(m, e)
    ensures TransportIs(m, e, env, Step(m, e, env).m)
  {
    if !e.EvReceive? {
      LocalTransport(m, e, env);
    } else if Accepts(m, e.frame) {
      AcceptTransport(m, e.frame, env);
    } else {
      OtherTransport(m, e.frame, env);
    }
  }

  lemma LocalTransport(m: Apmx, e: Event, env: Env)
    requires Enabled(m, e) && !e.EvReceive?
    ensures TransportIs(m, e, env, Step(m, e, env).m)
  {
    match e {
      case EvNotify(data) => NotifyTransport(m, data, env);
      case EvUserAck(status) => UserAckTransport(m, status, env);
      case EvTimer => TimerTransport(m, env);
      case EvClose =>
    }
  }

  lemma NotifyTransport(m: Apmx, data: int, env: Env)
    requires m.alpmi == AlpmiWAlarm
    ensures TransportIs(m, EvNotify(data), env, Notify(m, data, env).m)
  {
  }

  lemma UserAckTransport(m: Apmx, status: int, env: Env)
    ensures TransportIs(m, EvUserAck(status), env, UserAck(m, status, env).m)
  {
  }

  lemma TimerTransport(m: Apmx, env: Env)
    requires m.timers > 0
    ensures TransportIs(m, EvTimer, env, Timeout(m, env).m)
  {
  }

  lemma OtherTransport(m: Apmx, f: Frame, env: Env)
    requires !Accepts(m, f)
    ensures TransportIs(m, EvReceive(f), env, Receive(m, f, env).m)
  {
    if Kills(m, f) {
      KilledTransport(m, f, env);
    } else {
      AckedTransport(m, f, env);
    }
  }

  lemma KilledTransport(m: Apmx, f: Frame, env: Env)
    requires Kills(m, f)
    ensures TransportIs(m, EvReceive(f), env, Receive(m, f, env).m)
  {
  }

  lemma AckedTransport(m: Apmx, f: Frame, env: Env)
    requires !Accepts(m, f) && !Kills(m, f)
    ensures TransportIs(m, EvReceive(f), env, Receive(m, f, env).m)
  {
  }

  lemma AcceptTransport(m: Apmx, f: Frame, env: Env)
    requires Accepts(m, f)
    ensures TransportIs(m, EvReceive(f), env, Accept(m, f, env).m)
  {
    var a := AckInd(m, f).m;
    if env.alloc && env.sent {
      DeliverTransport(a.(expO := a.exp, exp := NextSeq(a.exp), apmr := ApmrWCnf), f.body, env);
    }
  }

  /** The body that goes up closes the instance if it intrudes, and touches nothing of this otherwise. */
  lemma DeliverTransport(m: Apmx, body: Body, env: Env)
    ensures var d := Deliver(m, body, env).m;
      var closed := body.Notification? && body.wellFormed && m.alpmr in {AlpmrWUserAck, AlpmrWTack};
      && d.saved == (if closed then None else m.saved) && d.resend == m.resend
      && d.timers == (if closed && m.apms != ApmsClosed && m.handle && m.timers > 0 then m.timers - 1 else m.timers)
      && d.handle == (m.handle && !(closed && m.apms != ApmsClosed))
  {
  }

  /** The body can be delivered: an Alarm ACK always, a notification if it parses and does not intrude. */
  predicate Deliverable(m: Apmx, f: Frame, env: Env) {
    f.body.AlarmAck? || (f.body.Notification? && f.body.wellFormed && !Intrudes(m, f, env))
  }

  /** A received frame gives an error exactly in these cases, all of them DATA frames. */
  predicate ReceivesBadly(m: Apmx, f: Frame, env: Env) {
    f.version == 1 && f.pdu == DataPdu &&
    (|| m.apmr == ApmrWCnf
     || (IsData(m, f) && f.sendSeq == m.exp && !(env.alloc && env.sent && Deliverable(m, f, env)))
     || Kills(m, f))
  }

  /** What the caller gets back, and in what state APMS and APMR are left. */
  lemma ReceivedExactly(m: Apmx, f: Frame, env: Env)
    requires m.apmr != ApmrClosed
    ensures var o := Receive(m, f, env);
      && (o.ok <==> !ReceivesBadly(m, f, env))
      && o.m.apms == (if Closes(m, EvReceive(f), env) then ApmsClosed else if Confirms(m, f) then ApmsOpen else m.apms)
      && o.m.apmr == (if Closes(m, EvReceive(f), env) then ApmrClosed
                      else if Answered(m, f, env) && !Deliverable(m, f, env) then ApmrWCnf else m.apmr)
  {
    if Accepts(m, f) {
      AcceptedExactly(m, f, env);
    }
  }

  lemma AcceptedExactly(m: Apmx, f: Frame, env: Env)
    requires Accepts(m, f)
    ensures var o := Accept(m, f, env);
      && (o.ok <==> env.alloc && env.sent && Deliverable(m, f, env))
      && o.m.apms == (if Intrudes(m, f, env) then ApmsClosed else if Confirms(m, f) then ApmsOpen else m.apms)
      && o.m.apmr == (if Intrudes(m, f, env) then ApmrClosed
                      else if Answered(m, f, env) && !Deliverable(m, f, env) then ApmrWCnf else ApmrOpen)
  {
  }

  /** A request succeeds if and only if it starts a message, and that is sent and timed. */
  lemma LocalExactly(m: Apmx, e: Event, env: Env)
    requires Enabled(m, e) && !e.EvReceive?
    ensures var o := Step(m, e, env);
      && (e.EvNotify? || e.EvUserAck? ==> (o.ok <==> Starts(m, e) && env.alloc && env.sent && env.timer))
      && o.m.apms == (if Closes(m, e, env) then ApmsClosed else if Starts(m, e) then ApmsWTack else m.apms)
      && o.m.apmr == (if Closes(m, e, env) then ApmrClosed else m.apmr)
  {
  }

  // ---------------------------------------------------------------------------------------------
  // Messages handed up

  /** The frame's message is handed to the layer above. */
  predicate HandsUp(m: Apmx, f: Frame, env: Env) {
    match f.body
    case Notification(data, _) => Indicates(m, f, env, data)
    case AlarmAck(status) => ConfirmsNotification(m, f, env, status)
    case _ => false
  }

  /** The messages that the layer above has been told of. */
  function Messages(ups: seq<Up>): (r: seq<Body>)
    ensures |r| <= |ups|
  {
    if ups == [] then []
    else
      Messages(ups[..|ups| - 1]) +
      match ups[|ups| - 1]
      case NotificationIndicated(data) => [Notification(data, true)]
      case NotificationConfirmed(status) => [AlarmAck(status)]
      case _ => []
  }

  lemma {:induction false} MessagesJoin(a: seq<Up>, b: seq<Up>)
    ensures Messages(a + b) == Messages(a) + Messages(b)
    decreases |b|
  {
    if b == [] {
      assert a + b == a;
    } else {
      var n := |b| - 1;
      assert (a + b)[..|a| + n] == a + b[..n];
      MessagesJoin(a, b[..n]);
    }
  }

  lemma MessagesOfOne(b: bool, u: Up)
    ensures Messages(One(b, u)) ==
      if !b then []
      else match u
        case NotificationIndicated(data) => [Notification(data, true)]
        case NotificationConfirmed(status) => [AlarmAck(status)]
        case _ => []
  {
    if b {
      assert [u][..0] == [];
      assert Messages([]) == [];
    }
  }

  /** What a step tells of is the frame's own message, or nothing. */
  lemma StepTells(m: Apmx, e: Event, env: Env)
    requires Enabled(m, e)
    ensures Messages(Step(m, e, env).ups) ==
      if e.EvReceive? && HandsUp(m, e.frame, env) then [e.frame.body] else []
  {
    if e.EvReceive? {
      ReceiveTells(m, e.frame, env);
    } else {
      UpsOfLocalEvent(m, e, env);
      MessagesOfOne(Breaks(m, e), Aborted);
    }
  }

  lemma BodyTells(m: Apmx, f: Frame, env: Env)
    ensures Messages(BodyUps(m, f, env)) == if HandsUp(m, f, env) then [f.body] else []
  {
    match f.body {
      case Notification(data, _) => MessagesOfOne(Indicates(m, f, env, data), NotificationIndicated(data));
      case AlarmAck(status) => MessagesOfOne(ConfirmsNotification(m, f, env, status), NotificationConfirmed(status));
      case _ =>
    }
  }

  lemma ReceiveTells(m: Apmx, f: Frame, env: Env)
    ensures Messages(Receive(m, f, env).ups) == if HandsUp(m, f, env) then [f.body] else []
  {
    UpsExactly(m, f, env);
    var a, b, c := One(ConfirmsAck(m, f), AckConfirmed), BodyUps(m, f, env), One(Kills(m, f) || Intrudes(m, f, env), Aborted);
    MessagesJoin(a + b, c);
    MessagesJoin(a, b);
    MessagesOfOne(ConfirmsAck(m, f), AckConfirmed);
    MessagesOfOne(Kills(m, f) || Intrudes(m, f, env), Aborted);
    BodyTells(m, f, env);
  }
}
