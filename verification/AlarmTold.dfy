/**
 What the layer above is told over whole runs of two alarm instances: which of the accepted messages, in which order, and
 which not.
 */
module AlarmTold {
  import opened Options
  import opened AlarmMachine
  import opened AlarmEffects
  import opened AlarmWorld

  // ---------------------------------------------------------------------------------------------
  // In order, and none twice

  predicate Increasing(at: seq<nat>) {
    forall i, j :: 0 <= i < j < |at| ==> at[i] < at[j]
  }

  /** The given positions of bs hold ms. */
  predicate Picks(bs: seq<Body>, at: seq<nat>, ms: seq<Body>) {
    |at| == |ms| && Increasing(at) && forall i :: 0 <= i < |at| ==> at[i] < |bs| && bs[at[i]] == ms[i]
  }

  /** What was told are accepted messages, in the order in which they were accepted; the others are counted. */
  predicate Reported(s: Side) {
    Picks(s.acc, s.toldAt, Messages(s.told)) && |s.toldAt| + s.untold == |s.acc|
  }

  lemma PicksOfPrefix(bs: seq<Body>, cs: seq<Body>, at: seq<nat>, ms: seq<Body>)
    requires Picks(bs, at, ms) && bs <= cs
    ensures Picks(cs, at, ms)
  {
  }

  lemma PicksOneMore(bs: seq<Body>, at: seq<nat>, ms: seq<Body>, b: Body)
    requires Picks(bs, at, ms)
    ensures Picks(bs + [b], at + [|bs|], ms + [b])
  {
  }

  lemma ReportedKept(s: Side, e: Event, env: Env)
    requires Reported(s) && Enabled(s.m, e)
    ensures Reported(After(s, e, env))
  {
    StepTells(s.m, e, env);
    MessagesJoin(s.told, Step(s.m, e, env).ups);
    MovedReported(s, e, env, Step(s.m, e, env));
  }

  lemma MovedReported(s: Side, e: Event, env: Env, o: Out)
    requires Reported(s)
    requires Messages(s.told + o.ups) ==
      Messages(s.told) + if e.EvReceive? && HandsUp(s.m, e.frame, env) then [e.frame.body] else []
    ensures Reported(Moved(s, e, env, o))
  {
    if e.EvReceive? && HandsUp(s.m, e.frame, env) {
      PicksOneMore(s.acc, s.toldAt, Messages(s.told), e.frame.body);
    } else if e.EvReceive? && Accepts(s.m, e.frame) {
      PicksOfPrefix(s.acc, s.acc + [e.frame.body], s.toldAt, Messages(s.told));
    }
  }

  lemma {:induction false} PlayReported(w: World, moves: seq<Move>)
    requires Reported(w.a) && Reported(w.b)
    ensures Reported(Play(w, moves).a) && Reported(Play(w, moves).b)
    decreases |moves|
  {
    if moves != [] {
      if CanMove(w, moves[0]) {
        ActReported(w, moves[0]);
        PlayReported(Next(w, moves[0]), moves[1..]);
      } else {
        PlayReported(w, moves[1..]);
      }
    }
  }

  lemma ActReported(w: World, mv: Move)
    requires Reported(w.a) && Reported(w.b) && CanMove(w, mv)
    ensures Reported(Next(w, mv).a) && Reported(Next(w, mv).b)
  {
    var s, p := if mv.byA then w.a else w.b, if mv.byA then w.b else w.a;
    match mv.act {
      case Local(e, env) => ReportedKept(s, e, env);
      case Fetch(env) => ReportedKept(s, EvReceive(p.out[0].frame), env);
      case _ =>
    }
  }

  /**
   What each application is told of are messages of the other end, in the order in which they were sent, with the data they
   were sent with, and none of them twice.
   */
  lemma ToldInOrder(high: bool, retriesA: nat, retriesB: nat, moves: seq<Move>)
    requires Failed(Play(Start(high, retriesA, retriesB), moves)) <= MAX_FAILED
    ensures var w := Play(Start(high, retriesA, retriesB), moves);
      Picks(w.b.sent, w.a.toldAt, Messages(w.a.told)) && Picks(w.a.sent, w.b.toldAt, Messages(w.b.told))
  {
    AcceptedInOrder(high, retriesA, retriesB, moves);
    PlayReported(Start(high, retriesA, retriesB), moves);
    var w := Play(Start(high, retriesA, retriesB), moves);
    PicksOfPrefix(w.a.acc, w.b.sent, w.a.toldAt, Messages(w.a.told));
    PicksOfPrefix(w.b.acc, w.a.sent, w.b.toldAt, Messages(w.b.told));
  }

  lemma {:induction false} AtLeast(at: seq<nat>, i: nat)
    requires Increasing(at) && i < |at|
    ensures at[i] >= i
  {
    if i > 0 {
      AtLeast(at, i - 1);
    }
  }

  lemma {:induction false} AtMost(at: seq<nat>, n: nat, i: nat)
    requires Increasing(at) && i < |at| <= n && forall k :: 0 <= k < |at| ==> at[k] < n
    ensures at[i] + (|at| - 1 - i) < n
    decreases |at| - i
  {
    if i + 1 < |at| {
      AtMost(at, n, i + 1);
    }
  }

  /** All was told if and only if nothing was left out. */
  lemma ToldAll(s: Side)
    requires Reported(s)
    ensures Messages(s.told) == s.acc <==> s.untold == 0
  {
    if s.untold == 0 {
      forall i | 0 <= i < |s.acc|
        ensures s.toldAt[i] == i
      {
        AtLeast(s.toldAt, i);
        AtMost(s.toldAt, |s.acc|, i);
      }
    }
  }

  // ---------------------------------------------------------------------------------------------
  // Which messages are left out

  /** The machine that a message is for waits for it. */
  predicate Awaited(m: Apmx, f: Frame) {
    match f.body
    case Notification(_, _) => Awaits(m, f)
    case AlarmAck(_) => m.alpmi == AlpmiWAck
    case _ => false
  }

  /** Of a frame that is accepted in its turn the layer above is told if and only if its TACK can be sent, and it is awaited. */
  lemma LostExactly(s: Side, p: Side, env: Env)
    requires Own(s) && Own(p) && InOrder(s, p) && InOrder(p, s)
    requires |p.out| > 0 && Fresh(s, p.out[0]) && Accepts(s.m, p.out[0].frame)
    ensures var f := p.out[0].frame;
      Messages(Receive(s.m, f, env).ups) == [f.body] <==> env.alloc && env.sent && Awaited(s.m, f)
    ensures HandsUp(s.m, p.out[0].frame, env) <==> env.alloc && env.sent && Awaited(s.m, p.out[0].frame)
  {
    FreshFetch(s, p, env);
    assert p.sent[|s.acc|] in p.sent;
    ReceiveTells(s.m, p.out[0].frame, env);
  }

  /** The side that acts, and the other one. */
  function Actor(w: World, mv: Move): Side {
    if mv.byA then w.a else w.b
  }

  function Other(w: World, mv: Move): Side {
    if mv.byA then w.b else w.a
  }

  /** A message is accepted in this move. */
  predicate Takes(w: World, mv: Move)
    requires CanMove(w, mv)
  {
    mv.act.Fetch? && Accepts(Actor(w, mv).m, Other(w, mv).out[0].frame)
  }

  /** Along the run, every message that is accepted is answered, and awaited. */
  predicate Heard(w: World, moves: seq<Move>)
    decreases |moves|
  {
    if moves == [] then true
    else if CanMove(w, moves[0]) then
      && (Takes(w, moves[0]) ==>
            moves[0].act.env.alloc && moves[0].act.env.sent && Awaited(Actor(w, moves[0]).m, Other(w, moves[0]).out[0].frame))
      && Heard(Next(w, moves[0]), moves[1..])
    else
      Heard(w, moves[1..])
  }

  /** Along the run, every reply to a DATA frame that is accepted can be sent. */
  predicate RepliesSent(w: World, moves: seq<Move>)
    decreases |moves|
  {
    if moves == [] then true
    else if CanMove(w, moves[0]) then
      && (Takes(w, moves[0]) ==> moves[0].act.env.alloc && moves[0].act.env.sent)
      && RepliesSent(Next(w, moves[0]), moves[1..])
    else
      RepliesSent(w, moves[1..])
  }

  function Untold(w: World): nat {
    w.a.untold + w.b.untold
  }

  lemma MoveUntold(w: World, mv: Move)
    requires CanMove(w, mv)
    ensures Untold(Next(w, mv)) == Untold(w) +
      if Takes(w, mv) && !HandsUp(Actor(w, mv).m, Other(w, mv).out[0].frame, mv.act.env) then 1 else 0
  {
  }

  lemma {:induction false} UntoldGrow(w: World, moves: seq<Move>)
    ensures Untold(w) <= Untold(Play(w, moves))
    decreases |moves|
  {
    if moves != [] {
      if CanMove(w, moves[0]) {
        MoveUntold(w, moves[0]);
      }
      UntoldGrow(if CanMove(w, moves[0]) then Next(w, moves[0]) else w, moves[1..]);
    }
  }

  lemma MoveKeepsTight(w: World, mv: Move)
    requires Tight(w) && CanMove(w, mv) && Failed(w) <= MAX_FAILED
    ensures Tight(Next(w, mv))
  {
    ActKeepsTight(Actor(w, mv), Other(w, mv), mv.act);
  }

  lemma TakenExactly(w: World, mv: Move)
    requires Tight(w) && CanMove(w, mv) && Failed(w) <= MAX_FAILED && Takes(w, mv)
    ensures var f := Other(w, mv).out[0].frame;
      HandsUp(Actor(w, mv).m, f, mv.act.env) <==> mv.act.env.alloc && mv.act.env.sent && Awaited(Actor(w, mv).m, f)
  {
    RecentIsFresh(Actor(w, mv), Other(w, mv));
    LostExactly(Actor(w, mv), Other(w, mv), mv.act.env);
  }

  lemma {:induction false} PlayTells(w: World, moves: seq<Move>)
    requires Tight(w) && Failed(Play(w, moves)) <= MAX_FAILED
    ensures Heard(w, moves) <==> Untold(Play(w, moves)) == Untold(w)
    decreases |moves|
  {
    if moves != [] {
      FailuresGrow(w, moves);
      if CanMove(w, moves[0]) {
        var w1 := Next(w, moves[0]);
        MoveKeepsTight(w, moves[0]);
        MoveUntold(w, moves[0]);
        if Takes(w, moves[0]) {
          TakenExactly(w, moves[0]);
        }
        UntoldGrow(w1, moves[1..]);
        PlayTells(w1, moves[1..]);
      } else {
        PlayTells(w, moves[1..]);
      }
    }
  }

  /**
   Both applications have been told of every message that was accepted if and only if, along the run, the reply to each
   accepted DATA frame could be sent and its message was awaited. A message whose TACK could not be sent is
   confirmed by the TACK for its retransmission, and never handed up.
   */
  lemma HandedUpExactly(high: bool, retriesA: nat, retriesB: nat, moves: seq<Move>)
    requires Failed(Play(Start(high, retriesA, retriesB), moves)) <= MAX_FAILED
    ensures var w := Play(Start(high, retriesA, retriesB), moves);
      Messages(w.a.told) == w.a.acc && Messages(w.b.told) == w.b.acc <==> Heard(Start(high, retriesA, retriesB), moves)
  {
    var w := Play(Start(high, retriesA, retriesB), moves);
    PlayTells(Start(high, retriesA, retriesB), moves);
    PlayReported(Start(high, retriesA, retriesB), moves);
    ToldAll(w.a);
    ToldAll(w.b);
  }

  // ---------------------------------------------------------------------------------------------
  // Without failed notifications every message is awaited

  function Notifs(bs: seq<Body>): nat {
    if bs == [] then 0 else Notifs(bs[..|bs| - 1]) + if bs[|bs| - 1].Notification? then 1 else 0
  }

  function Acks(bs: seq<Body>): nat {
    if bs == [] then 0 else Acks(bs[..|bs| - 1]) + if bs[|bs| - 1].AlarmAck? then 1 else 0
  }

  lemma OneMoreBody(bs: seq<Body>, b: Body)
    ensures Notifs(bs + [b]) == Notifs(bs) + if b.Notification? then 1 else 0
    ensures Acks(bs + [b]) == Acks(bs) + if b.AlarmAck? then 1 else 0
  {
    assert (bs + [b])[..|bs|] == bs;
  }

  lemma {:induction false} FewerBefore(bs: seq<Body>, k: nat)
    requires k <= |bs|
    ensures Notifs(bs[..k]) <= Notifs(bs) && Acks(bs[..k]) <= Acks(bs)
    ensures k < |bs| && bs[|bs| - 1].AlarmAck? ==> Acks(bs[..k]) < Acks(bs)
    decreases |bs|
  {
    if k == |bs| {
      assert bs[..k] == bs;
    } else {
      var n := |bs| - 1;
      assert bs[..n][..k] == bs[..k];
      FewerBefore(bs[..n], k);
    }
  }

  /** While open: one notification outstanding in W_ACK, one to be acknowledged in W_USER_ACK, and none otherwise. */
  predicate Counted(s: Side) {
    s.m.apms != ApmsClosed ==>
      && s.m.alpmi != AlpmiWStart && s.m.alpmr != AlpmrWStart
      && Notifs(s.sent) == Acks(s.acc) + (if s.m.alpmi == AlpmiWAck then 1 else 0)
      && Notifs(s.acc) == Acks(s.sent) + (if s.m.alpmr == AlpmrWUserAck then 1 else 0)
      && (s.m.alpmr == AlpmrWTack ==> s.m.apms == ApmsWTack && s.sent != [] && s.sent[|s.sent| - 1].AlarmAck?)
  }

  /** A notification was sent when all before it were acknowledged, an acknowledgement when one notification was left. */
  predicate BuiltInTurn(s: Side, msg: nat, acked: nat) {
    && msg < |s.sent| && acked <= |s.acc|
    && (s.sent[msg].Notification? ==> Notifs(s.sent[..msg]) == Acks(s.acc[..acked]))
    && (s.sent[msg].AlarmAck? ==> Acks(s.sent[..msg]) + 1 == Notifs(s.acc[..acked]))
  }

  predicate FramesInTurn(s: Side) {
    && (forall t <- s.out :: t.frame.pdu == DataPdu ==> BuiltInTurn(s, t.msg, t.acked))
    && (s.m.saved.Some? ==> |s.sent| > 0 && BuiltInTurn(s, |s.sent| - 1, s.savedAcked))
  }

  /** In this step nothing fails, and an accepted message is handed up. */
  predicate Smooth(s: Side, e: Event, env: Env) {
    !Fails(s.m, e, env) && (e.EvReceive? && Accepts(s.m, e.frame) ==> HandsUp(s.m, e.frame, env))
  }

  /** What the counts depend on: ALPMI and ALPMR as stated, and APMS left only by a start or a TACK. */
  predicate OpenStep(m: Apmx, e: Event, env: Env, o: Out) {
    && m.apms != ApmsClosed
    && o.m.alpmi == NextAlpmi(m, e, env) && o.m.alpmr == NextAlpmr(m, e, env)
    && (Starts(m, e) ==> o.m.apms == ApmsWTack)
    && (!Starts(m, e) && !(e.EvReceive? && Confirms(m, e.frame)) ==> o.m.apms == m.apms)
  }

  lemma StaysOpen(m: Apmx, e: Event, env: Env)
    requires Enabled(m, e) && Step(m, e, env).m.apms != ApmsClosed && (m.saved.Some? ==> m.saved.value.pdu == DataPdu)
    ensures OpenStep(m, e, env, Step(m, e, env))
  {
    NextStatesExactly(m, e, env);
    StepShape(m, e, env);
  }

  lemma CountedKept(s: Side, e: Event, env: Env)
    requires OwnNumbers(s) && Counted(s) && Enabled(s.m, e) && Smooth(s, e, env)
    ensures Counted(After(s, e, env))
  {
    if Step(s.m, e, env).m.apms != ApmsClosed {
      StaysOpen(s.m, e, env);
      CountsMove(s, e, env, Step(s.m, e, env));
    }
  }

  lemma CountsMove(s: Side, e: Event, env: Env, o: Out)
    requires OwnNumbers(s) && Counted(s) && Smooth(s, e, env) && OpenStep(s.m, e, env, o)
    ensures Counted(Record(s, e, env, o))
  {
    if Starts(s.m, e) {
      OneMoreBody(s.sent, BodyOf(e));
    } else if e.EvReceive? {
      CountsReceive(s, e.frame, env, o);
    }
  }

  lemma CountsReceive(s: Side, f: Frame, env: Env, o: Out)
    requires Counted(s) && Smooth(s, EvReceive(f), env) && OpenStep(s.m, EvReceive(f), env, o)
    ensures Counted(Record(s, EvReceive(f), env, o))
  {
    OneMoreBody(s.acc, f.body);
  }

  lemma BuiltBefore(s: Side, s': Side, msg: nat, acked: nat)
    requires BuiltInTurn(s, msg, acked) && s.sent <= s'.sent && s.acc <= s'.acc
    ensures BuiltInTurn(s', msg, acked)
  {
    assert s'.sent[..msg] == s.sent[..msg] && s'.acc[..acked] == s.acc[..acked];
  }

  /** A message that is started now is in turn. */
  lemma StartedInTurn(s: Side, s': Side, e: Event)
    requires Counted(s) && Starts(s.m, e) && s'.sent == s.sent + [BodyOf(e)] && s'.acc == s.acc
    ensures BuiltInTurn(s', |s.sent|, |s.acc|)
  {
    assert s'.sent[..|s.sent|] == s.sent && s'.acc[..|s.acc|] == s.acc;
  }

  lemma FramesKept(s: Side, e: Event, env: Env)
    requires Own(s) && Counted(s) && FramesInTurn(s) && Enabled(s.m, e)
    ensures FramesInTurn(After(s, e, env))
  {
    var s' := After(s, e, env);
    StepShape(s.m, e, env);
    SavedKept(s, s', e, env);
    forall t | t in s'.out && t.frame.pdu == DataPdu
      ensures BuiltInTurn(s', t.msg, t.acked)
    {
      if t in s.out {
        BuiltBefore(s, s', t.msg, t.acked);
      } else {
        NewFrameInTurn(s, s', e, env, Step(s.m, e, env), t);
      }
    }
  }

  lemma SavedKept(s: Side, s': Side, e: Event, env: Env)
    requires Own(s) && Counted(s) && FramesInTurn(s) && Enabled(s.m, e) && s' == After(s, e, env)
    requires Shape(s.m, e, Step(s.m, e, env))
    ensures Starts(s.m, e) ==> BuiltInTurn(s', |s.sent|, |s.acc|)
    ensures s.m.saved.Some? ==> |s.sent| > 0 && BuiltInTurn(s', |s.sent| - 1, s.savedAcked)
    ensures s'.m.saved.Some? ==> |s'.sent| > 0 && BuiltInTurn(s', |s'.sent| - 1, s'.savedAcked)
  {
    if Starts(s.m, e) {
      StartedInTurn(s, s', e);
    }
    if s.m.saved.Some? {
      BuiltBefore(s, s', |s.sent| - 1, s.savedAcked);
    }
  }

  lemma NewFrameInTurn(s: Side, s': Side, e: Event, env: Env, o: Out, t: Tagged)
    requires Shape(s.m, e, o)
    requires var s1 := Moved(s, e, env, o); s'.sent == s1.sent && s'.acc == s1.acc && t in TagAll(s1, e, o.wire)
    requires Starts(s.m, e) ==> BuiltInTurn(s', |s.sent|, |s.acc|)
    requires s.m.saved.Some? ==> |s.sent| > 0 && BuiltInTurn(s', |s.sent| - 1, s.savedAcked)
    requires t.frame.pdu == DataPdu
    ensures BuiltInTurn(s', t.msg, t.acked)
  {
    var k :| 0 <= k < |o.wire| && t == Tag(Moved(s, e, env, o), e, o.wire[k]);
    assert Emits(s.m, e, o.m, o.wire[k]);
  }

  /** A fetched message is awaited. */
  lemma FetchedAwaited(s: Side, p: Side, env: Env)
    requires Own(s) && Own(p) && InOrder(s, p) && InOrder(p, s) && Counted(s) && FramesInTurn(p)
    requires |p.out| > 0 && Fresh(s, p.out[0]) && Accepts(s.m, p.out[0].frame)
    ensures Awaited(s.m, p.out[0].frame)
  {
    var t := p.out[0];
    FreshFetch(s, p, env);
    assert GoodTag(p, t) && BuiltInTurn(p, t.msg, t.acked);
    SeqInjective(t.msg, |s.acc|);
    assert p.sent[..t.msg] == s.acc;
    assert p.acc[..t.acked] == s.sent[..t.acked];
    FewerBefore(s.sent, t.acked);
    if t.frame.body.Notification? && s.m.alpmr == AlpmrWTack {
      assert t.acked == |s.sent|;
    }
  }

  predicate InTurn(s: Side) {
    Counted(s) && FramesInTurn(s)
  }

  predicate Harmony(w: World) {
    Tight(w) && Failed(w) == 0 && InTurn(w.a) && InTurn(w.b)
  }

  lemma PeerFramesKept(p: Side, act: Action)
    requires FramesInTurn(p)
    requires (act.Fetch? ==> |p.out| > 0) && (act.Lose? || act.Duplicate? ==> act.k < |p.out|)
    ensures FramesInTurn(ActPeer(p, act))
  {
    var q := ActPeer(p, act);
    forall t | t in q.out && t.frame.pdu == DataPdu
      ensures BuiltInTurn(q, t.msg, t.acked)
    {
      assert t in p.out;
      BuiltBefore(p, q, t.msg, t.acked);
    }
    if p.m.saved.Some? {
      BuiltBefore(p, q, |p.sent| - 1, p.savedAcked);
    }
  }

  /** The event that the move is for the side that acts, if it is one. */
  predicate IsEvent(mv: Move) {
    mv.act.Local? || mv.act.Fetch?
  }

  function EventOf(w: World, mv: Move): Event
    requires CanMove(w, mv) && IsEvent(mv)
  {
    if mv.act.Local? then mv.act.e else EvReceive(Other(w, mv).out[0].frame)
  }

  lemma SelfInTurn(s: Side, p: Side, act: Action)
    requires CanAct(s, p, act) && Own(s) && InTurn(s)
    requires act.Local? ==> Smooth(s, act.e, act.env)
    requires act.Fetch? ==> Smooth(s, EvReceive(p.out[0].frame), act.env)
    ensures InTurn(ActSelf(s, p, act))
  {
    match act {
      case Local(e, env) => EventInTurn(s, e, env);
      case Fetch(env) => EventInTurn(s, EvReceive(p.out[0].frame), env);
      case _ =>
    }
  }

  lemma EventInTurn(s: Side, e: Event, env: Env)
    requires Enabled(s.m, e) && Own(s) && InTurn(s) && Smooth(s, e, env)
    ensures InTurn(After(s, e, env))
  {
    CountedKept(s, e, env);
    FramesKept(s, e, env);
  }

  lemma PeerInTurn(p: Side, act: Action)
    requires InTurn(p)
    requires (act.Fetch? ==> |p.out| > 0) && (act.Lose? || act.Duplicate? ==> act.k < |p.out|)
    ensures InTurn(ActPeer(p, act))
  {
    PeerFramesKept(p, act);
  }

  lemma MoveIsSmooth(w: World, mv: Move)
    requires Harmony(w) && CanMove(w, mv) && IsEvent(mv) && Failed(Next(w, mv)) == 0
    requires Takes(w, mv) ==> mv.act.env.alloc && mv.act.env.sent
    ensures Smooth(Actor(w, mv), EventOf(w, mv), mv.act.env)
    ensures Takes(w, mv) ==> HandsUp(Actor(w, mv).m, Other(w, mv).out[0].frame, mv.act.env)
  {
    if Takes(w, mv) {
      RecentIsFresh(Actor(w, mv), Other(w, mv));
      FetchedAwaited(Actor(w, mv), Other(w, mv), mv.act.env);
      TakenExactly(w, mv);
    }
  }

  lemma MoveKeepsHarmony(w: World, mv: Move)
    requires Harmony(w) && CanMove(w, mv) && Failed(Next(w, mv)) == 0
    requires Takes(w, mv) ==> mv.act.env.alloc && mv.act.env.sent
    ensures Harmony(Next(w, mv)) && Untold(Next(w, mv)) == Untold(w)
  {
    MoveKeepsTight(w, mv);
    MoveUntold(w, mv);
    if IsEvent(mv) {
      MoveIsSmooth(w, mv);
    }
    BothInTurn(w, mv);
  }

  lemma BothInTurn(w: World, mv: Move)
    requires InTurn(w.a) && InTurn(w.b) && Own(w.a) && Own(w.b) && CanMove(w, mv)
    requires IsEvent(mv) ==> Smooth(Actor(w, mv), EventOf(w, mv), mv.act.env)
    ensures InTurn(Next(w, mv).a) && InTurn(Next(w, mv).b)
  {
    if mv.byA {
      SelfInTurn(w.a, w.b, mv.act);
      PeerInTurn(w.b, mv.act);
    } else {
      SelfInTurn(w.b, w.a, mv.act);
      PeerInTurn(w.a, mv.act);
    }
  }

  lemma {:induction false} PlayInHarmony(w: World, moves: seq<Move>)
    requires Harmony(w) && Failed(Play(w, moves)) == 0
    ensures RepliesSent(w, moves) <==> Untold(Play(w, moves)) == Untold(w)
    decreases |moves|
  {
    if moves != [] {
      if !CanMove(w, moves[0]) {
        PlayInHarmony(w, moves[1..]);
      } else {
        var w1 := Next(w, moves[0]);
        FailuresGrow(w1, moves[1..]);
        if Takes(w, moves[0]) && !(moves[0].act.env.alloc && moves[0].act.env.sent) {
          TakenExactly(w, moves[0]);
          MoveUntold(w, moves[0]);
          UntoldGrow(w1, moves[1..]);
        } else {
          MoveKeepsHarmony(w, moves[0]);
          PlayInHarmony(w1, moves[1..]);
        }
      }
    }
  }

  /**
   In a run in which no notification fails locally, both applications have been told of every accepted message, in order, if and
   only if the reply to each accepted DATA frame could be sent: ALPMI and ALPMR are always ready for it.
   */
  lemma HandedUpWithoutFailures(high: bool, retriesA: nat, retriesB: nat, moves: seq<Move>)
    requires Failed(Play(Start(high, retriesA, retriesB), moves)) == 0
    ensures var w := Play(Start(high, retriesA, retriesB), moves);
      Messages(w.a.told) == w.a.acc && Messages(w.b.told) == w.b.acc <==> RepliesSent(Start(high, retriesA, retriesB), moves)
  {
    var w := Play(Start(high, retriesA, retriesB), moves);
    PlayInHarmony(Start(high, retriesA, retriesB), moves);
    PlayReported(Start(high, retriesA, retriesB), moves);
    ToldAll(w.a);
    ToldAll(w.b);
  }
}
