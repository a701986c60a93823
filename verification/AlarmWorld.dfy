/**
 Two alarm instances of one priority, a device and a mirror peer, joined by two FIFO channels that may
 lose and duplicate frames. A channel stands for the wire and the receive queue behind it.

 A Side carries, next to the machine, the history that the properties speak of: the DATA bodies it
 has sent and accepted, what it has told the layer above, and the number of its messages that were confirmed. A frame
 in a channel is tagged with the history that it was built from; no function of the machine sees a tag.
 */
module AlarmWorld {
  import opened Options
  import opened AlarmMachine
  import opened AlarmEffects

  /** The sequence number of the i-th message; i == -1 stands for the initial "old" value. */
  function Seq(i: int): nat
    requires i >= -1
  {
    if i == -1 then 0xfffe else if i == 0 then 0xffff else (i - 1) % 0x8000
  }

  lemma SeqNext(i: nat)
    ensures NextSeq(Seq(i)) == Seq(i + 1)
  {
  }

  /** Exactly when two messages share a number. */
  lemma SeqAlias(i: int, j: int)
    requires -1 <= i <= j
    ensures Seq(i) == Seq(j) <==> i == j || (i >= 1 && (j - i) % 0x8000 == 0)
  {
  }

  lemma SeqInjective(i: int, j: int)
    requires -1 <= i <= j < i + 0x8000
    ensures Seq(i) == Seq(j) ==> i == j
  {
    SeqAlias(i, j);
  }

  datatype Tagged = Tagged(frame: Frame, msg: nat, acked: nat, sentAt: nat)

  datatype Side = Side(
    m: Apmx,
    sent: seq<Body>,      // bodies of the messages started, in order
    acc: seq<Body>,       // bodies of the messages accepted from the peer, in order
    told: seq<Up>,        // all that has been given to the layer above, in order
    toldAt: seq<nat>,     // which of the accepted messages the layer above was told of
    conf: nat,            // number of own messages confirmed by a TACK
    out: seq<Tagged>,     // channel towards the peer
    savedAcked: nat,      // |acc| at the time the saved frame was built
    untold: nat,          // accepted messages that it was not told of
    failed: nat)          // notifications that started a message, but could not be sent and timed locally

  function Fresh0(high: bool, retries: nat): Side {
    Side(Activated(high, retries), [], [], [], [], 0, [], 0, 0, 0)
  }

  function Tag(s: Side, e: Event, f: Frame): Tagged {
    Tagged(f, if |s.sent| > 0 then |s.sent| - 1 else 0,
           if f.pdu == DataPdu && e.EvTimer? then s.savedAcked else |s.acc|, |s.sent|)
  }

  function TagAll(s: Side, e: Event, wire: seq<Frame>): (r: seq<Tagged>)
  {
    seq(|wire|, i requires 0 <= i < |wire| => Tag(s, e, wire[i]))
  }

  /** The side after a step with outcome o, before the frames of the step enter the channel. */
  function Moved(s: Side, e: Event, env: Env, o: Out): Side {
    var accepts := e.EvReceive? && Accepts(s.m, e.frame);
    s.(m := o.m,
       sent := if Starts(s.m, e) then s.sent + [BodyOf(e)] else s.sent,
       acc := if accepts then s.acc + [e.frame.body] else s.acc,
       told := s.told + o.ups,
       toldAt := if e.EvReceive? && HandsUp(s.m, e.frame, env) then s.toldAt + [|s.acc|] else s.toldAt,
       conf := if e.EvReceive? && Confirms(s.m, e.frame) then s.conf + 1 else s.conf,
       savedAcked := if Starts(s.m, e) then |s.acc| else s.savedAcked,
       untold := if accepts && !HandsUp(s.m, e.frame, env) then s.untold + 1 else s.untold,
       failed := if Fails(s.m, e, env) then s.failed + 1 else s.failed)
  }

  function Record(s: Side, e: Event, env: Env, o: Out): Side {
    var s1 := Moved(s, e, env, o);
    s1.(out := s.out + TagAll(s1, e, o.wire))
  }

  function After(s: Side, e: Event, env: Env): Side
    requires Enabled(s.m, e)
  {
    Record(s, e, env, Step(s.m, e, env))
  }

  /** A frame in the channel says what its sender knew when it was built. */
  predicate GoodTag(s: Side, t: Tagged) {
    && t.acked <= |s.acc| && t.frame.ackSeq == Seq(t.acked - 1)
    && t.sentAt <= |s.sent|
    && (t.frame.pdu == DataPdu ==>
          && t.frame.version == 1 && t.frame.tack
          && t.msg < |s.sent| && t.msg + 1 == t.sentAt
          && t.frame.sendSeq == Seq(t.msg) && t.frame.body == s.sent[t.msg])
  }

  predicate GoodSaved(s: Side, f: Frame) {
    && |s.sent| == s.conf + 1 && s.savedAcked <= |s.acc|
    && f == Frame(1, DataPdu, true, Seq(s.conf), Seq(s.savedAcked - 1), 1, s.sent[s.conf])
  }

  predicate OwnNumbers(s: Side) {
    && s.m.send == Seq(s.conf) && s.m.sendO == Seq(s.conf - 1)
    && s.m.exp == Seq(|s.acc|) && s.m.expO == Seq(|s.acc| - 1)
    && s.conf <= |s.sent| <= s.conf + 1
    && (s.m.apms == ApmsOpen ==> |s.sent| == s.conf && s.m.saved.None?)
    && (s.m.apms == ApmsWTack ==> |s.sent| == s.conf + 1)
    && (s.m.apms == ApmsClosed ==> s.m.saved.None? && s.m.apmr == ApmrClosed)
    && (s.m.saved.Some? ==> GoodSaved(s, s.m.saved.value))
    && (forall b <- s.sent :: b.AlarmAck? || (b.Notification? && b.wellFormed))
  }

  /** What one side keeps by itself, whatever it receives. */
  predicate Own(s: Side) {
    OwnNumbers(s) && forall t <- s.out :: GoodTag(s, t)
  }

  lemma OwnKept(s: Side, e: Event, env: Env)
    requires Own(s) && Enabled(s.m, e)
    ensures Own(After(s, e, env))
  {
    StepShape(s.m, e, env);
    RecordKeepsOwn(s, e, env, Step(s.m, e, env));
  }

  lemma RecordKeepsOwn(s: Side, e: Event, env: Env, o: Out)
    requires Own(s) && Shape(s.m, e, o)
    ensures Own(Record(s, e, env, o))
  {
    MovedKeepsNumbers(s, e, env, o);
    var s' := Record(s, e, env, o);
    forall t | t in s'.out
      ensures GoodTag(s', t)
    {
      if t in s.out {
        assert GoodTag(s, t);
      } else {
        NewTag(s, e, env, o, t);
      }
    }
  }

  lemma MovedKeepsNumbers(s: Side, e: Event, env: Env, o: Out)
    requires Own(s) && Shape(s.m, e, o)
    ensures OwnNumbers(Moved(s, e, env, o))
  {
    SeqNext(s.conf);
    SeqNext(|s.acc|);
  }

  /** The frames of the step itself are tagged truthfully. */
  lemma NewTag(s: Side, e: Event, env: Env, o: Out, t: Tagged)
    requires Own(s) && Shape(s.m, e, o)
    requires t in TagAll(Moved(s, e, env, o), e, o.wire)
    ensures GoodTag(Moved(s, e, env, o), t)
    ensures t.sentAt == |Moved(s, e, env, o).sent|
  {
    MovedKeepsNumbers(s, e, env, o);
    var k :| 0 <= k < |o.wire| && t == Tag(Moved(s, e, env, o), e, o.wire[k]);
    assert Emits(s.m, e, o.m, o.wire[k]);
  }

  // ---------------------------------------------------------------------------------------------
  // Both sides together

  /** What side s has confirmed the peer has accepted, and what the peer has accepted s has sent, in order. */
  predicate InOrder(s: Side, r: Side) {
    s.conf <= |r.acc| && r.acc <= s.sent
  }

  datatype World = World(a: Side, b: Side)

  predicate Safe(w: World) {
    Own(w.a) && Own(w.b) && InOrder(w.a, w.b) && InOrder(w.b, w.a)
  }

  /** One side acts, or the channel from its peer misbehaves. */
  datatype Action =
    | Local(e: Event, env: Env)
    | Fetch(env: Env)
    | Lose(k: nat)
    | Duplicate(k: nat)

  datatype Move = Move(byA: bool, act: Action)

  predicate CanAct(s: Side, p: Side, act: Action) {
    match act
    case Local(e, env) => !e.EvReceive? && Enabled(s.m, e)
    case Fetch(env) => |p.out| > 0 && s.m.apmr != ApmrClosed
    case Lose(k) => k < |p.out|
    case Duplicate(k) => k < |p.out|
  }

  function ActSelf(s: Side, p: Side, act: Action): Side
    requires CanAct(s, p, act)
  {
    match act
    case Local(e, env) => After(s, e, env)
    case Fetch(env) => After(s, EvReceive(p.out[0].frame), env)
    case Lose(_) => s
    case Duplicate(_) => s
  }

  function ActPeer(p: Side, act: Action): Side
    requires (act.Fetch? ==> |p.out| > 0) && (act.Lose? || act.Duplicate? ==> act.k < |p.out|)
  {
    match act
    case Local(e, env) => p
    case Fetch(env) => p.(out := p.out[1..])
    case Lose(k) => p.(out := p.out[..k] + p.out[k + 1..])
    case Duplicate(k) => p.(out := p.out[..k + 1] + p.out[k..])
  }

  predicate CanMove(w: World, mv: Move) {
    if mv.byA then CanAct(w.a, w.b, mv.act) else CanAct(w.b, w.a, mv.act)
  }

  function Next(w: World, mv: Move): World
    requires CanMove(w, mv)
  {
    if mv.byA then World(ActSelf(w.a, w.b, mv.act), ActPeer(w.b, mv.act))
    else World(ActPeer(w.a, mv.act), ActSelf(w.b, w.a, mv.act))
  }

  /** Any sequence of moves; a move that is not possible when its turn comes does nothing. */
  function Play(w: World, moves: seq<Move>): World
    decreases |moves|
  {
    if moves == [] then w
    else
      var w1 := if CanMove(w, moves[0]) then Next(w, moves[0]) else w;
      Play(w1, moves[1..])
  }

  /** The number of messages confirmed since the one that the frame acknowledges. */
  function Age(s: Side, t: Tagged): int {
    s.conf - (t.acked - 1)
  }

  /** The frame is at most 0x7fff messages old, as a message, and as an acknowledgement if s waits for one. */
  predicate Fresh(s: Side, t: Tagged) {
    && (t.frame.pdu == DataPdu ==> |s.acc| - t.msg < 0x8000)
    && (s.m.apms == ApmsWTack ==> Age(s, t) < 0x8000)
  }

  predicate FreshAct(s: Side, p: Side, act: Action) {
    act.Fetch? && |p.out| > 0 ==> Fresh(s, p.out[0])
  }

  /** A fresh frame confirms a message only if the peer has accepted it, and is accepted only in turn. */
  lemma FreshFetch(s: Side, p: Side, env: Env)
    requires Own(s) && Own(p) && InOrder(s, p) && InOrder(p, s)
    requires |p.out| > 0 && Fresh(s, p.out[0])
    ensures var f := p.out[0].frame;
      && (Confirms(s.m, f) ==> s.conf < |p.acc|)
      && (Accepts(s.m, f) ==> |s.acc| < |p.sent| && f.body == p.sent[|s.acc|])
  {
    var t := p.out[0];
    assert GoodTag(p, t);
    if s.m.apms == ApmsWTack {
      SeqInjective(t.acked - 1, s.conf);
    }
    if t.frame.pdu == DataPdu {
      SeqInjective(t.msg, |s.acc|);
    }
  }

  /** The frame is of a kind that confirms, if its acknowledgement number is the current one. */
  predicate CanConfirm(m: Apmx, f: Frame) {
    Confirms(m, f.(ackSeq := m.send))
  }

  /**
   Exactly when a fetched frame makes s take a message for delivered that the peer has not accepted: s has nothing
   else to be confirmed, and the age of the frame is a multiple of 0x8000, but not from before the first TACK.
   */
  lemma BreaksExactly(s: Side, p: Side, env: Env)
    requires Own(s) && Own(p) && InOrder(s, p) && |p.out| > 0 && s.m.apmr != ApmrClosed
    ensures var t := p.out[0]; var s' := After(s, EvReceive(t.frame), env);
      !(s'.conf <= |p.acc|) <==>
        CanConfirm(s.m, t.frame) && s.conf == |p.acc| && t.acked >= 2 && Age(s, t) % 0x8000 == 0
  {
    var t := p.out[0];
    assert GoodTag(p, t);
    if t.acked - 1 <= s.conf {
      SeqAlias(t.acked - 1, s.conf);
    }
  }

  lemma PeerKeepsOwn(p: Side, act: Action)
    requires Own(p)
    requires (act.Fetch? ==> |p.out| > 0) && (act.Lose? || act.Duplicate? ==> act.k < |p.out|)
    ensures Own(ActPeer(p, act))
  {
    forall t | t in ActPeer(p, act).out
      ensures t in p.out
    {
    }
  }

  lemma ActKeepsOrder(s: Side, p: Side, act: Action)
    requires Own(s) && Own(p) && InOrder(s, p) && InOrder(p, s)
    requires CanAct(s, p, act) && FreshAct(s, p, act)
    ensures Own(ActSelf(s, p, act)) && Own(ActPeer(p, act))
    ensures InOrder(ActSelf(s, p, act), ActPeer(p, act)) && InOrder(ActPeer(p, act), ActSelf(s, p, act))
  {
    PeerKeepsOwn(p, act);
    match act
    case Local(e, env) =>
      OwnKept(s, e, env);
      LocalKeepsOrder(s, p, e, env);
    case Fetch(env) =>
      OwnKept(s, EvReceive(p.out[0].frame), env);
      FetchKeepsOrder(s, p, env);
    case Lose(_) =>
    case Duplicate(_) =>
  }

  lemma LocalKeepsOrder(s: Side, p: Side, e: Event, env: Env)
    requires InOrder(s, p) && InOrder(p, s) && !e.EvReceive? && Enabled(s.m, e)
    ensures InOrder(After(s, e, env), p) && InOrder(p, After(s, e, env))
  {
  }

  lemma FetchKeepsOrder(s: Side, p: Side, env: Env)
    requires Own(s) && Own(p) && InOrder(s, p) && InOrder(p, s)
    requires |p.out| > 0 && Fresh(s, p.out[0]) && s.m.apmr != ApmrClosed
    ensures var s' := After(s, EvReceive(p.out[0].frame), env); var p' := p.(out := p.out[1..]);
      InOrder(s', p') && InOrder(p', s')
  {
    FreshFetch(s, p, env);
  }

  /** Every frame fetched along the run is fresh. */
  predicate FreshRun(w: World, moves: seq<Move>)
    decreases |moves|
  {
    if moves == [] then true
    else if CanMove(w, moves[0]) then
      && (if moves[0].byA then FreshAct(w.a, w.b, moves[0].act) else FreshAct(w.b, w.a, moves[0].act))
      && FreshRun(Next(w, moves[0]), moves[1..])
    else
      FreshRun(w, moves[1..])
  }

  lemma {:induction false} FreshRunIsSafe(w: World, moves: seq<Move>)
    requires Safe(w) && FreshRun(w, moves)
    ensures Safe(Play(w, moves))
    decreases |moves|
  {
    if moves != [] {
      if CanMove(w, moves[0]) {
        if moves[0].byA {
          ActKeepsOrder(w.a, w.b, moves[0].act);
        } else {
          ActKeepsOrder(w.b, w.a, moves[0].act);
        }
        FreshRunIsSafe(Next(w, moves[0]), moves[1..]);
      } else {
        FreshRunIsSafe(w, moves[1..]);
      }
    }
  }

  // ---------------------------------------------------------------------------------------------
  // Freshness need not be assumed: the coupling of ALPMI and ALPMR with the transport bounds the age

  /** A side has never sent more than one message beyond the number it has accepted, and one more for each that failed. */
  predicate Coupled(s: Side) {
    && |s.sent| + Credit(s.m) <= 1 + |s.acc| + s.failed
    && (s.m.saved.Some? ==> |s.sent| <= s.savedAcked + 1 + s.failed)
  }

  /** The channel from s to r: nothing in it was sent before what r has already accepted. */
  predicate Recent(s: Side, r: Side) {
    && (forall t <- s.out :: |r.acc| <= t.sentAt <= t.acked + 1 + s.failed)
    && (forall i, j :: 0 <= i <= j < |s.out| ==> s.out[i].sentAt <= s.out[j].sentAt)
  }

  predicate Tight(w: World) {
    Safe(w) && Coupled(w.a) && Coupled(w.b) && Recent(w.a, w.b) && Recent(w.b, w.a)
  }

  /** The largest number of failed notifications, of both sides together, that cannot make a frame look current again. */
  const MAX_FAILED: nat := 0x7ffd

  /** At most two messages old, and one more for each failed one; and never older than the last accepted DATA frame. */
  lemma RecentIsFresh(s: Side, p: Side)
    requires Own(s) && Own(p) && InOrder(s, p) && InOrder(p, s) && Coupled(s) && Recent(p, s)
    requires |p.out| > 0
    ensures s.m.apms == ApmsWTack ==> Age(s, p.out[0]) <= 2 + s.failed + p.failed
    ensures s.failed + p.failed <= MAX_FAILED ==> Fresh(s, p.out[0])
    ensures p.out[0].frame.pdu == DataPdu ==> |s.acc| - 1 <= p.out[0].msg
  {
    assert p.out[0] in p.out && GoodTag(p, p.out[0]);
  }

  lemma CoupledKept(s: Side, e: Event, env: Env)
    requires Own(s) && Coupled(s) && Enabled(s.m, e)
    ensures Coupled(After(s, e, env))
  {
    CreditStep(s.m, e, env);
    StepShape(s.m, e, env);
  }

  lemma RecentKeptBySender(s: Side, r: Side, e: Event, env: Env)
    requires Own(s) && Coupled(s) && Recent(s, r) && InOrder(s, r)
    requires Enabled(s.m, e)
    ensures Recent(After(s, e, env), r)
  {
    StepShape(s.m, e, env);
    CoupledKept(s, e, env);
    var o := Step(s.m, e, env);
    var s1 := Moved(s, e, env, o);
    forall t | t in TagAll(s1, e, o.wire)
      ensures |r.acc| <= t.sentAt <= t.acked + 1 + s1.failed && t.sentAt == |s1.sent|
    {
      NewTag(s, e, env, o, t);
      NewTagAcked(s, e, env, o, t);
    }
    forall t | t in s.out
      ensures t.sentAt <= |s1.sent|
    {
      assert GoodTag(s, t);
    }
    LaterAppended(s.out, TagAll(s1, e, o.wire), |s1.sent|);
  }

  /** Frames that were all sent later keep the channel in order. */
  lemma LaterAppended(out: seq<Tagged>, new_: seq<Tagged>, n: nat)
    requires forall i, j :: 0 <= i <= j < |out| ==> out[i].sentAt <= out[j].sentAt
    requires (forall t <- out :: t.sentAt <= n) && forall t <- new_ :: t.sentAt == n
    ensures var q := out + new_; forall i, j :: 0 <= i <= j < |q| ==> q[i].sentAt <= q[j].sentAt
  {
    var q := out + new_;
    assert forall i :: 0 <= i < |q| ==> if i < |out| then q[i] in out else q[i] in new_;
  }

  lemma NewTagAcked(s: Side, e: Event, env: Env, o: Out, t: Tagged)
    requires Own(s) && Coupled(s) && Shape(s.m, e, o)
    requires Coupled(Moved(s, e, env, o))
    requires t in TagAll(Moved(s, e, env, o), e, o.wire)
    ensures t.sentAt <= t.acked + 1 + Moved(s, e, env, o).failed
  {
    var k :| 0 <= k < |o.wire| && t == Tag(Moved(s, e, env, o), e, o.wire[k]);
    assert Emits(s.m, e, o.m, o.wire[k]);
  }

  /** What the receiver has accepted then was sent no later than the frame that it has fetched. */
  lemma AcceptedUpTo(s: Side, r: Side, env: Env)
    requires Own(s) && Own(r) && InOrder(s, r) && InOrder(r, s) && Recent(s, r) && Coupled(r)
    requires |s.out| > 0 && r.m.apmr != ApmrClosed && s.failed + r.failed <= MAX_FAILED
    ensures |After(r, EvReceive(s.out[0].frame), env).acc| <= s.out[0].sentAt
  {
    RecentIsFresh(r, s);
    FreshFetch(r, s, env);
    var t0 := s.out[0];
    assert GoodTag(s, t0);
    if Accepts(r.m, t0.frame) {
      SeqInjective(t0.msg, |r.acc|);
    }
  }

  lemma RecentKeptByReceiver(s: Side, r: Side, env: Env)
    requires Own(s) && Own(r) && InOrder(s, r) && InOrder(r, s) && Recent(s, r) && Coupled(r)
    requires |s.out| > 0 && r.m.apmr != ApmrClosed && s.failed + r.failed <= MAX_FAILED
    ensures Recent(s.(out := s.out[1..]), After(r, EvReceive(s.out[0].frame), env))
  {
    AcceptedUpTo(s, r, env);
    RestIsLater(s.out);
  }

  lemma RestIsLater(out: seq<Tagged>)
    requires out != [] && forall i, j :: 0 <= i <= j < |out| ==> out[i].sentAt <= out[j].sentAt
    ensures forall t <- out[1..] :: t in out && out[0].sentAt <= t.sentAt
    ensures var q := out[1..]; forall i, j :: 0 <= i <= j < |q| ==> q[i].sentAt <= q[j].sentAt
  {
    forall t | t in out[1..]
      ensures t in out && out[0].sentAt <= t.sentAt
    {
      var k :| 1 <= k < |out| && out[k] == t;
    }
  }

  lemma RecentKeptByLoss(s: Side, r: Side, k: nat)
    requires Recent(s, r) && k < |s.out|
    ensures Recent(s.(out := s.out[..k] + s.out[k + 1..]), r)
  {
    var q := s.out[..k] + s.out[k + 1..];
    assert forall i :: 0 <= i < |q| ==> q[i] == if i < k then s.out[i] else s.out[i + 1];
  }

  lemma RecentKeptByDuplication(s: Side, r: Side, k: nat)
    requires Recent(s, r) && k < |s.out|
    ensures Recent(s.(out := s.out[..k + 1] + s.out[k..]), r)
  {
    var q := s.out[..k + 1] + s.out[k..];
    forall i, j | 0 <= i <= j < |q|
      ensures |r.acc| <= q[i].sentAt <= q[i].acked + 1 + s.failed && q[i].sentAt <= q[j].sentAt
    {
      assert q[i] == s.out[if i <= k then i else i - 1];
      assert q[j] == s.out[if j <= k then j else j - 1];
    }
  }

  lemma FetchKeepsTight(s: Side, p: Side, env: Env)
    requires Own(s) && Own(p) && InOrder(s, p) && InOrder(p, s)
    requires Coupled(s) && Coupled(p) && Recent(s, p) && Recent(p, s)
    requires CanAct(s, p, Fetch(env)) && s.failed + p.failed <= MAX_FAILED
    ensures var s', p' := ActSelf(s, p, Fetch(env)), ActPeer(p, Fetch(env));
      && Own(s') && Own(p') && InOrder(s', p') && InOrder(p', s')
      && Coupled(s') && Coupled(p') && Recent(s', p') && Recent(p', s')
  {
    RecentIsFresh(s, p);
    ActKeepsOrder(s, p, Fetch(env));
    CoupledKept(s, EvReceive(p.out[0].frame), env);
    RecentKeptBySender(s, p, EvReceive(p.out[0].frame), env);
    RecentKeptByReceiver(p, s, env);
  }

  lemma LocalKeepsTight(s: Side, p: Side, e: Event, env: Env)
    requires Own(s) && Own(p) && InOrder(s, p) && InOrder(p, s)
    requires Coupled(s) && Recent(s, p) && Recent(p, s) && CanAct(s, p, Local(e, env))
    ensures var s' := After(s, e, env);
      Own(s') && InOrder(s', p) && InOrder(p, s') && Coupled(s') && Recent(s', p) && Recent(p, s')
  {
    OwnKept(s, e, env);
    LocalKeepsOrder(s, p, e, env);
    CoupledKept(s, e, env);
    RecentKeptBySender(s, p, e, env);
    assert After(s, e, env).acc == s.acc;
  }

  lemma ActKeepsTight(s: Side, p: Side, act: Action)
    requires Own(s) && Own(p) && InOrder(s, p) && InOrder(p, s)
    requires Coupled(s) && Coupled(p) && Recent(s, p) && Recent(p, s)
    requires CanAct(s, p, act) && s.failed + p.failed <= MAX_FAILED
    ensures var s', p' := ActSelf(s, p, act), ActPeer(p, act);
      && Own(s') && Own(p') && InOrder(s', p') && InOrder(p', s')
      && Coupled(s') && Coupled(p') && Recent(s', p') && Recent(p', s')
  {
    match act
    case Local(e, env) =>
      LocalKeepsTight(s, p, e, env);
    case Fetch(env) =>
      FetchKeepsTight(s, p, env);
    case Lose(k) =>
      ActKeepsOrder(s, p, act);
      RecentKeptByLoss(p, s, k);
    case Duplicate(k) =>
      ActKeepsOrder(s, p, act);
      RecentKeptByDuplication(p, s, k);
  }

  /** All failed notifications. */
  function Failed(w: World): nat {
    w.a.failed + w.b.failed
  }

  lemma {:induction false} FailuresGrow(w: World, moves: seq<Move>)
    ensures Failed(w) <= Failed(Play(w, moves))
    decreases |moves|
  {
    if moves != [] {
      FailuresGrow(if CanMove(w, moves[0]) then Next(w, moves[0]) else w, moves[1..]);
    }
  }

  lemma {:induction false} PlayIsTight(w: World, moves: seq<Move>)
    requires Tight(w) && Failed(Play(w, moves)) <= MAX_FAILED
    ensures Tight(Play(w, moves))
    decreases |moves|
  {
    if moves != [] {
      FailuresGrow(w, moves);
      if CanMove(w, moves[0]) {
        if moves[0].byA {
          ActKeepsTight(w.a, w.b, moves[0].act);
        } else {
          ActKeepsTight(w.b, w.a, moves[0].act);
        }
        PlayIsTight(Next(w, moves[0]), moves[1..]);
      } else {
        PlayIsTight(w, moves[1..]);
      }
    }
  }

  /** Both ends just activated, nothing under way. */
  function Start(high: bool, retriesA: nat, retriesB: nat): World {
    World(Fresh0(high, retriesA), Fresh0(high, retriesB))
  }

  /** The sender's number is the one the receiver expects, or the one it accepted last and has still to be confirmed. */
  predicate InStep(s: Side, r: Side) {
    || (s.m.send == r.m.exp && |r.acc| == s.conf)
    || (s.m.send == r.m.expO && |r.acc| == s.conf + 1 == |s.sent|)
  }

  lemma SafeIsInStep(s: Side, r: Side)
    requires Own(s) && Own(r) && InOrder(s, r)
    ensures InStep(s, r)
  {
  }

  /**
   The main result: in-order, duplicate-free acceptance in both directions, over every run of the two ends in which at
   most MAX_FAILED notifications fail locally. Frames may be lost and duplicated, and other sends may fail, as
   often as they like. For the bound see AlarmStale.ExactBound.
   */
  lemma AcceptedInOrder(high: bool, retriesA: nat, retriesB: nat, moves: seq<Move>)
    requires Failed(Play(Start(high, retriesA, retriesB), moves)) <= MAX_FAILED
    ensures var w := Play(Start(high, retriesA, retriesB), moves);
      && w.b.acc <= w.a.sent && w.a.acc <= w.b.sent
      && InStep(w.a, w.b) && InStep(w.b, w.a)
  {
    PlayIsTight(Start(high, retriesA, retriesB), moves);
    var w := Play(Start(high, retriesA, retriesB), moves);
    SafeIsInStep(w.a, w.b);
    SafeIsInStep(w.b, w.a);
  }

  /** Without a bound on failures the same holds as long as no fetched frame is 0x8000 messages old. */
  lemma AcceptedInOrderIfFresh(high: bool, retriesA: nat, retriesB: nat, moves: seq<Move>)
    requires FreshRun(Start(high, retriesA, retriesB), moves)
    ensures var w := Play(Start(high, retriesA, retriesB), moves);
      && w.b.acc <= w.a.sent && w.a.acc <= w.b.sent
      && InStep(w.a, w.b) && InStep(w.b, w.a)
  {
    FreshRunIsSafe(Start(high, retriesA, retriesB), moves);
    var w := Play(Start(high, retriesA, retriesB), moves);
    SafeIsInStep(w.a, w.b);
    SafeIsInStep(w.b, w.a);
  }

  /** Between such ends APMR never meets an unexpected number: it sends no NACK and every DATA frame is new or the last one again. */
  lemma NeverNacks(high: bool, retriesA: nat, retriesB: nat, moves: seq<Move>, env: Env)
    requires Failed(Play(Start(high, retriesA, retriesB), moves)) <= MAX_FAILED
    ensures var w := Play(Start(high, retriesA, retriesB), moves);
      && (|w.b.out| > 0 ==> forall g <- Receive(w.a.m, w.b.out[0].frame, env).wire :: g.pdu != NackPdu)
      && (|w.a.out| > 0 ==> forall g <- Receive(w.b.m, w.a.out[0].frame, env).wire :: g.pdu != NackPdu)
  {
    PlayIsTight(Start(high, retriesA, retriesB), moves);
    var w := Play(Start(high, retriesA, retriesB), moves);
    if |w.b.out| > 0 {
      FetchedInStep(w.a, w.b, env);
    }
    if |w.a.out| > 0 {
      FetchedInStep(w.b, w.a, env);
    }
  }

  lemma FetchedInStep(s: Side, p: Side, env: Env)
    requires Own(s) && Own(p) && InOrder(s, p) && InOrder(p, s) && Coupled(s) && Recent(p, s) && |p.out| > 0
    ensures forall g <- Receive(s.m, p.out[0].frame, env).wire :: g.pdu != NackPdu
  {
    RecentIsFresh(s, p);
    assert GoodTag(p, p.out[0]);
    NackOnlyOutOfStep(s.m, p.out[0].frame, env);
  }
}
