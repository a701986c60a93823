/**
 The alarm transport of one priority of one AR: the coupled machines ALPMI, ALPMR, APMS and APMR of
 src/common/pf_alarm.c, as functions on a record. The record has the fields of pf_apmx_t and
 pf_alpmx_t that decide behaviour; a function returns the new record, the frames put on the wire,
 the indications handed upwards and the C return value.

 Class AlarmAr.AlarmAr performs the same operations in place and is proved against these functions.
 */
module AlarmMachine {
  import opened Options

  datatype ApmsState = ApmsClosed | ApmsOpen | ApmsWTack
  datatype ApmrState = ApmrClosed | ApmrOpen | ApmrWCnf
  datatype AlpmiState = AlpmiWStart | AlpmiWAlarm | AlpmiWAck
  datatype AlpmrState = AlpmrWStart | AlpmrWNotify | AlpmrWUserAck | AlpmrWTack

  /** The variable part of an RTA-PDU. `wellFormed` says whether the notification body parses. */
  datatype Body =
    | NoBody
    | Notification(data: int, wellFormed: bool)
    | AlarmAck(status: int)
    | UnknownBlock
    | Status(code: int)

  datatype PduType = DataPdu | NackPdu | AckPdu | ErrPdu | OtherPdu

  datatype Frame = Frame(version: nat, pdu: PduType, tack: bool, sendSeq: nat, ackSeq: nat, varLen: nat, body: Body)

  datatype Apmx = Apmx(
    high: bool,            // the high priority instance
    retries: nat,          // rta_retries of the alarm CR
    apms: ApmsState,
    apmr: ApmrState,
    alpmi: AlpmiState,
    alpmr: AlpmrState,
    send: nat,             // send_seq_count
    sendO: nat,            // send_seq_count_o
    exp: nat,              // exp_seq_count
    expO: nat,             // exp_seq_count_o
    saved: Option<Frame>,  // p_rta, kept for retransmission
    resend: nat,           // resend_counter
    timers: nat,           // resend timers living in the scheduler
    handle: bool)          // resend_timeout refers to a running timer

  /** What is handed upwards: to the application, or to CMSU in the case of Aborted. */
  datatype Up =
    | NotificationConfirmed(status: int)
    | NotificationIndicated(data: int)
    | AckConfirmed
    | Aborted

  /** Outcomes of the external calls made during one step. */
  datatype Env = Env(alloc: bool, sent: bool, timer: bool, errSent: bool)

  datatype Out = Out(m: Apmx, wire: seq<Frame>, ups: seq<Up>, ok: bool)

  function NextSeq(n: nat): nat { (n + 1) % 0x8000 }

  /** An instance that has just been activated by alpmx_activate and apmx_activate. */
  function Activated(high: bool, retries: nat): Apmx {
    Apmx(high, retries, ApmsOpen, ApmrOpen, AlpmiWAlarm, AlpmrWNotify,
         0xffff, 0xfffe, 0xffff, 0xfffe, None, 0, 0, false)
  }

  /** pf_alarm_close, seen from one priority. Only the timer known to the handle is removed. */
  function CloseReq(m: Apmx, env: Env): Out {
    var err := Frame(1, ErrPdu, false, m.send, m.expO, 4, Status(0));
    Out(m.(alpmi := AlpmiWStart, alpmr := AlpmrWStart, apms := ApmsClosed, apmr := ApmrClosed, saved := None,
           timers := if m.apms != ApmsClosed && m.handle && m.timers > 0 then m.timers - 1 else m.timers,
           handle := if m.apms != ApmsClosed then false else m.handle),
        if !m.high && m.apms != ApmsClosed && env.errSent then [err] else [],
        [], true)
  }

  /** pf_alarm_error_ind. CMSU reacts by closing the alarm instance. */
  function ErrorInd(m: Apmx, env: Env): Out {
    CloseReq(m, env).(ups := [Aborted], ok := false)
  }

  /** APMS_A_Data.req: send a DATA frame that wants a TACK, or give the negative confirmation. */
  function DataReq(m: Apmx, body: Body, env: Env): Out {
    if m.apms != ApmsOpen then
      ErrorInd(m, env)
    else
      var f := Frame(1, DataPdu, true, m.send, m.expO, 1, body);
      Out(m.(apms := ApmsWTack,
             resend := m.retries,
             saved := if env.alloc && m.saved.None? then Some(f) else m.saved,
             timers := if env.timer then m.timers + 1 else m.timers,
             handle := env.timer),
          if env.alloc && env.sent then [f] else [],
          [], env.alloc && env.sent && env.timer)
  }

  /** APMS looks at the ack_seq_num of an incoming DATA or ACK frame. */
  function AckInd(m: Apmx, f: Frame): Out {
    if (f.pdu == AckPdu || f.pdu == DataPdu) && m.apms == ApmsWTack && f.ackSeq == m.send then
      var confirmed := m.alpmr == AlpmrWTack;
      Out(m.(sendO := m.send, send := NextSeq(m.send), saved := None, apms := ApmsOpen,
             alpmr := if confirmed then AlpmrWNotify else m.alpmr),
          [], if confirmed then [AckConfirmed] else [], true)
    else
      Out(m, [], [], true)
  }

  /** A resend timer fires. Any live timer may be the one. */
  function Timeout(m: Apmx, env: Env): Out
    requires m.timers > 0
  {
    var m := m.(timers := m.timers - 1, handle := false);
    if m.apms != ApmsWTack then
      Out(m.(saved := None), [], [], true)
    else if m.saved.None? then
      Out(m, [], [], true)
    else if m.resend > 0 then
      Out(m.(resend := m.resend - 1, timers := if env.timer then m.timers + 1 else m.timers, handle := env.timer),
          if env.sent then [m.saved.value] else [], [], true)
    else
      ErrorInd(m.(apms := ApmsOpen), env)
  }

  /** The unacknowledged PDU that APMR sends: ACK (a TACK) or NACK. */
  function ReplyFrame(m: Apmx, pdu: PduType): Frame {
    Frame(1, pdu, false, m.sendO, m.expO, 0, NoBody)
  }

  function Reply(m: Apmx, pdu: PduType, env: Env): (wire: seq<Frame>) {
    if env.alloc && env.sent then [ReplyFrame(m, pdu)] else []
  }

  /** ALPMI receives the body of an Alarm ACK DATA frame. */
  function AlpmiInd(m: Apmx, status: int): Out {
    if m.alpmi == AlpmiWAck then
      Out(m.(alpmi := AlpmiWAlarm), [], [NotificationConfirmed(status)], true)
    else
      Out(m, [], [], true)
  }

  /** ALPMR receives the body of an Alarm Notification DATA frame. */
  function AlpmrInd(m: Apmx, data: int, env: Env): Out {
    match m.alpmr
    case AlpmrWStart => Out(m, [], [], true)
    case AlpmrWNotify => Out(m.(alpmr := AlpmrWUserAck), [], [NotificationIndicated(data)], true)
    case AlpmrWUserAck => ErrorInd(m, env)
    case AlpmrWTack => ErrorInd(m, env)
  }

  /** The body goes up. APMR is in WCNF and returns to OPEN only if this succeeds. */
  function Deliver(m: Apmx, body: Body, env: Env): Out {
    var up :=
      match body
      case AlarmAck(status) => AlpmiInd(m, status)
      case Notification(data, wellFormed) =>
        if wellFormed then AlpmrInd(m, data, env) else Out(m, [], [], false)
      case _ => Out(m, [], [], false);
    if up.ok then up.(m := up.m.(apmr := ApmrOpen)) else up
  }

  /** A DATA frame with the expected number and a known block type: both counters move before the TACK is sent. */
  function Accept(m: Apmx, f: Frame, env: Env): Out {
    var a := AckInd(m, f);
    var m1 := a.m.(expO := a.m.exp, exp := NextSeq(a.m.exp));
    if env.alloc && env.sent then
      var d := Deliver(m1.(apmr := ApmrWCnf), f.body, env);
      Out(d.m, [ReplyFrame(m1, AckPdu)] + d.wire, a.ups + d.ups, d.ok)
    else
      Out(m1, [], a.ups, false)
  }

  /** pf_alarm_apmr_a_data_ind. */
  function DataInd(m: Apmx, f: Frame, env: Env): Out {
    match m.apmr
    case ApmrClosed => Out(m, [], [], true)
    case ApmrWCnf => Out(m, [], [], false)
    case ApmrOpen =>
      if !f.tack then
        Out(m, [], [], true)
      else if f.sendSeq == m.exp then
        if f.body.AlarmAck? || f.body.Notification? then Accept(m, f, env) else ErrorInd(m, env)
      else if f.sendSeq == m.expO then
        var a := AckInd(m, f);
        Out(a.m, Reply(a.m, AckPdu, env), a.ups, true)
      else
        Out(m, Reply(m, NackPdu, env), [], true)
  }

  /** One frame taken from the receive queue by pf_alarm_apmr_periodic. */
  function Receive(m: Apmx, f: Frame, env: Env): Out {
    if f.version != 1 then
      Out(m, [], [], true)
    else
      match f.pdu
      case AckPdu => if f.varLen == 0 then AckInd(m, f) else Out(m, [], [], true)
      case NackPdu => Out(m, [], [], true)
      case DataPdu => DataInd(m, f, env)
      case ErrPdu => if f.varLen == 4 then ErrorInd(m, env).(ok := true) else Out(m, [], [], true)
      case OtherPdu => Out(m, [], [], true)
  }

  /** pf_alarm_send_internal: a queued notification leaves; the caller has checked ALPMI's state. */
  function Notify(m: Apmx, data: int, env: Env): Out
    requires m.alpmi == AlpmiWAlarm
  {
    var o := DataReq(m, Notification(data, true), env);
    if o.ok then o.(m := o.m.(alpmi := AlpmiWAck)) else o
  }

  /** pf_alarm_alpmr_alarm_ack, for the instance whose ALPMR it consults. */
  function UserAck(m: Apmx, status: int, env: Env): Out {
    if m.alpmr != AlpmrWUserAck then
      Out(m, [], [], false)
    else
      var o := DataReq(m, AlarmAck(status), env);
      o.(m := o.m.(alpmr := AlpmrWTack))
  }

  /** Everything that can happen to one instance after activation. */
  datatype Event =
    | EvNotify(data: int)
    | EvUserAck(status: int)
    | EvTimer
    | EvReceive(frame: Frame)
    | EvClose

  predicate Enabled(m: Apmx, e: Event) {
    match e
    case EvNotify(_) => m.alpmi == AlpmiWAlarm
    case EvUserAck(_) => true
    case EvTimer => m.timers > 0
    case EvReceive(_) => m.apmr != ApmrClosed
    case EvClose => true
  }

  function Step(m: Apmx, e: Event, env: Env): Out
    requires Enabled(m, e)
  {
    match e
    case EvNotify(data) => Notify(m, data, env)
    case EvUserAck(status) => UserAck(m, status, env)
    case EvTimer => Timeout(m, env)
    case EvReceive(f) => Receive(m, f, env)
    case EvClose => CloseReq(m, env)
  }

  /** The request starts a new message: APMS accepts it and waits for its TACK. */
  predicate Starts(m: Apmx, e: Event) {
    m.apms == ApmsOpen && ((e.EvNotify? && m.alpmi == AlpmiWAlarm) || (e.EvUserAck? && m.alpmr == AlpmrWUserAck))
  }

  function BodyOf(e: Event): Body {
    match e
    case EvNotify(data) => Notification(data, true)
    case EvUserAck(status) => AlarmAck(status)
    case _ => NoBody
  }

  /** The frame is a DATA frame that APMR accepts in this state. */
  predicate Accepts(m: Apmx, f: Frame) {
    && f.version == 1 && f.pdu == DataPdu && f.tack && m.apmr == ApmrOpen
    && f.sendSeq == m.exp && (f.body.AlarmAck? || f.body.Notification?)
  }

  /** The frame makes APMS confirm the outstanding message. */
  predicate Confirms(m: Apmx, f: Frame) {
    && f.version == 1 && m.apms == ApmsWTack && f.ackSeq == m.send
    && (|| (f.pdu == AckPdu && f.varLen == 0)
        || (f.pdu == DataPdu && f.tack && m.apmr == ApmrOpen
            && (f.sendSeq == m.expO || f.sendSeq == m.exp)
            && (f.sendSeq == m.exp ==> f.body.AlarmAck? || f.body.Notification?)))
  }

  /** The message that a request starts. */
  function NewFrame(m: Apmx, e: Event): Frame {
    Frame(1, DataPdu, true, m.send, m.expO, 1, BodyOf(e))
  }

  /** The frames a step may emit: a new message, the saved message again, or a frame carrying the current ack number. */
  predicate Emits(m: Apmx, e: Event, m': Apmx, f: Frame) {
    if f.pdu == DataPdu then
      || (Starts(m, e) && f == NewFrame(m, e))
      || (e.EvTimer? && m.apms == ApmsWTack && m' == m.(resend := m'.resend, timers := m'.timers, handle := m'.handle) && m.saved == Some(f))
    else
      f.ackSeq == m'.expO && !Starts(m, e) && f.pdu != OtherPdu
  }

  /** What a step does to counters, saved frame and APMS state. */
  ghost predicate Shape(m: Apmx, e: Event, o: Out) {
    var m' := o.m;
    var confirms := e.EvReceive? && Confirms(m, e.frame);
    var accepts := e.EvReceive? && Accepts(m, e.frame);
    && m'.high == m.high && m'.retries == m.retries
    && (if confirms then m'.sendO == m.send && m'.send == NextSeq(m.send) else m'.sendO == m.sendO && m'.send == m.send)
    && (if accepts then m'.expO == m.exp && m'.exp == NextSeq(m.exp) else m'.expO == m.expO && m'.exp == m.exp)
    && (|| (m'.apms == ApmsClosed && m'.apmr == ApmrClosed && m'.saved.None?)
        || (Starts(m, e) && m'.apms == ApmsWTack
            && m'.saved in {m.saved, Some(NewFrame(m, e))} && (m.saved.Some? ==> m'.saved == m.saved))
        || (confirms && m'.apms == ApmsOpen && m'.saved.None?)
        || (!Starts(m, e) && !confirms && m'.apms == m.apms
            && (m'.saved == m.saved || (m.apms != ApmsWTack && m'.saved.None?))
            && (m.apmr == ApmrClosed ==> m'.apmr == ApmrClosed)))
    && forall f <- o.wire :: Emits(m, e, m', f)
  }

  /** Delivering upwards touches neither counters nor the saved frame, unless it closes the instance. */
  lemma DeliverShape(m: Apmx, body: Body, env: Env)
    ensures var d := Deliver(m, body, env);
      && d.m.high == m.high && d.m.retries == m.retries
      && d.m.send == m.send && d.m.sendO == m.sendO && d.m.exp == m.exp && d.m.expO == m.expO
      && (|| (d.m.apms == ApmsClosed && d.m.apmr == ApmrClosed && d.m.saved.None?)
          || (d.m.apms == m.apms && d.m.saved == m.saved && (m.apmr == ApmrWCnf ==> d.m.apmr != ApmrClosed)))
      && forall f <- d.wire :: f.pdu == ErrPdu && f.ackSeq == m.expO
  {
  }

  lemma AcceptShape(m: Apmx, f: Frame, env: Env)
    requires Accepts(m, f)
    ensures Shape(m, EvReceive(f), Accept(m, f, env))
  {
    var a := AckInd(m, f);
    var m1 := a.m.(expO := a.m.exp, exp := NextSeq(a.m.exp));
    DeliverShape(m1.(apmr := ApmrWCnf), f.body, env);
  }

  lemma ReceiveShape(m: Apmx, f: Frame, env: Env)
    ensures Shape(m, EvReceive(f), Receive(m, f, env))
  {
    if Accepts(m, f) {
      AcceptShape(m, f, env);
    } else if f.version == 1 && f.pdu == DataPdu {
      RefuseShape(m, f, env);
    }
  }

  lemma RefuseShape(m: Apmx, f: Frame, env: Env)
    requires !Accepts(m, f) && f.version == 1 && f.pdu == DataPdu
    ensures Shape(m, EvReceive(f), DataInd(m, f, env))
  {
  }

  /** An abort leaves the instance closed, and nothing else that is received closes it. */
  lemma AbortCloses(m: Apmx, f: Frame, env: Env)
    ensures Aborted in Receive(m, f, env).ups ==> Receive(m, f, env).m.apmr == ApmrClosed
    ensures m.apmr != ApmrClosed && Receive(m, f, env).m.apmr == ApmrClosed ==> Aborted in Receive(m, f, env).ups
  {
    if Accepts(m, f) {
      var m1 := AckInd(m, f).m;
      assert Aborted !in AckInd(m, f).ups;
      DeliverCloses(m1.(expO := m1.exp, exp := NextSeq(m1.exp), apmr := ApmrWCnf), f.body, env);
    }
  }

  lemma DeliverCloses(m: Apmx, body: Body, env: Env)
    requires m.apmr == ApmrWCnf
    ensures Deliver(m, body, env).m.apmr == ApmrClosed <==> Aborted in Deliver(m, body, env).ups
  {
  }

  lemma NotifyShape(m: Apmx, data: int, env: Env)
    requires m.alpmi == AlpmiWAlarm
    ensures Shape(m, EvNotify(data), Notify(m, data, env))
  {
    if m.apms == ApmsOpen {
      NotifyStarts(m, data, env);
    } else {
      NotifyAborts(m, data, env);
    }
  }

  lemma NotifyStarts(m: Apmx, data: int, env: Env)
    requires m.alpmi == AlpmiWAlarm && m.apms == ApmsOpen
    ensures Shape(m, EvNotify(data), Notify(m, data, env))
  {
  }

  lemma NotifyAborts(m: Apmx, data: int, env: Env)
    requires m.alpmi == AlpmiWAlarm && m.apms != ApmsOpen
    ensures Shape(m, EvNotify(data), Notify(m, data, env))
  {
  }

  lemma UserAckShape(m: Apmx, status: int, env: Env)
    ensures Shape(m, EvUserAck(status), UserAck(m, status, env))
  {
    if m.alpmr == AlpmrWUserAck {
      if m.apms == ApmsOpen {
        UserAckStarts(m, status, env);
      } else {
        UserAckAborts(m, status, env);
      }
    }
  }

  lemma UserAckStarts(m: Apmx, status: int, env: Env)
    requires m.alpmr == AlpmrWUserAck && m.apms == ApmsOpen
    ensures Shape(m, EvUserAck(status), UserAck(m, status, env))
  {
  }

  lemma UserAckAborts(m: Apmx, status: int, env: Env)
    requires m.alpmr == AlpmrWUserAck && m.apms != ApmsOpen
    ensures Shape(m, EvUserAck(status), UserAck(m, status, env))
  {
  }

  /** Every step has that shape. */
  lemma StepShape(m: Apmx, e: Event, env: Env)
    requires Enabled(m, e)
    requires m.saved.Some? ==> m.saved.value.pdu == DataPdu
    ensures Shape(m, e, Step(m, e, env))
  {
    match e
    case EvNotify(data) => NotifyShape(m, data, env);
    case EvUserAck(status) => UserAckShape(m, status, env);
    case EvReceive(f) => ReceiveShape(m, f, env);
    case EvTimer =>
    case EvClose =>
  }

  /** How many more messages ALPMI and ALPMR may start without accepting another one from the peer. */
  function Credit(m: Apmx): nat {
    (if m.alpmi == AlpmiWAlarm then 1 else 0) + (if m.alpmr == AlpmrWUserAck then 1 else 0)
  }

  /** A notification starts a message, but it cannot be sent or its timer cannot be started. ALPMI then stays in W_ALARM. */
  predicate Fails(m: Apmx, e: Event, env: Env) {
    e.EvNotify? && Starts(m, e) && !(env.alloc && env.sent && env.timer)
  }

  /** Starting a message costs a credit, unless it is a notification that fails; only an accepted message earns one. */
  lemma CreditStep(m: Apmx, e: Event, env: Env)
    requires Enabled(m, e)
    ensures Credit(Step(m, e, env).m) + (if Starts(m, e) then 1 else 0)
         <= Credit(m) + (if e.EvReceive? && Accepts(m, e.frame) then 1 else 0) + (if Fails(m, e, env) then 1 else 0)
  {
    if e.EvReceive? {
      CreditReceive(m, e.frame, env);
    }
  }

  lemma CreditReceive(m: Apmx, f: Frame, env: Env)
    ensures Credit(Receive(m, f, env).m) <= Credit(m) + if Accepts(m, f) then 1 else 0
  {
    if Accepts(m, f) {
      CreditAccept(m, f, env);
    }
  }

  lemma CreditAccept(m: Apmx, f: Frame, env: Env)
    requires Accepts(m, f)
    ensures Credit(Receive(m, f, env).m) <= Credit(m) + 1
  {
  }

  /** A NACK answers only a DATA frame whose number is neither the expected one nor the one before it. */
  lemma NackOnlyOutOfStep(m: Apmx, f: Frame, env: Env)
    requires f.pdu == DataPdu ==> f.sendSeq == m.exp || f.sendSeq == m.expO
    ensures forall g <- Receive(m, f, env).wire :: g.pdu != NackPdu
  {
    if Accepts(m, f) {
      var m1 := AckInd(m, f).m;
      DeliverShape(m1.(expO := m1.exp, exp := NextSeq(m1.exp), apmr := ApmrWCnf), f.body, env);
    }
  }

  /** The request is passed on to APMS. */
  predicate RequestsData(m: Apmx, e: Event) {
    (e.EvNotify? && m.alpmi == AlpmiWAlarm) || (e.EvUserAck? && m.alpmr == AlpmrWUserAck)
  }

  /**
   A data request aborts if and only if APMS is not open. Exactly then pf_alarm_apms_apms_a_data_req goes on with an
   AR that its first negative confirmation has released: the abort reaches pf_ar_release, which clears the AR,
   before the second confirmation looks at p_alpmx.
   */
  lemma RequestOnReleasedAr(m: Apmx, e: Event, env: Env)
    requires Enabled(m, e) && RequestsData(m, e)
    ensures Aborted in Step(m, e, env).ups <==> m.apms != ApmsOpen
    ensures m.apms != ApmsOpen ==> !Step(m, e, env).ok && Step(m, e, env).m.apms == ApmsClosed
  {
  }
}
