/**
 Why AcceptedInOrder has a bound on failed notifications, and that the bound is exact. If a notification cannot be
 sent or timed, ALPMI may start the next one at once, so one end can start messages without limit
 while the other still waits for the TACK of its own. The frame saved there keeps the acknowledgement number it was
 built with; 0x8000 messages later that number is current again, and retransmitting the frame then confirms a
 message that was never accepted. The run below does this with the least possible number of failures.
 */
module AlarmStale {
  import opened Options
  import opened AlarmMachine
  import opened AlarmWorld

  const OK := Env(true, true, true, true)
  const NO_TIMER := Env(true, true, false, true)
  const NO_SEND := Env(false, false, false, false)

  lemma PlayOne(w: World, mv: Move, rest: seq<Move>)
    requires CanMove(w, mv)
    ensures Play(w, [mv] + rest) == Play(Next(w, mv), rest)
  {
    assert ([mv] + rest)[1..] == rest;
  }

  lemma {:induction false} PlayJoin(w: World, xs: seq<Move>, ys: seq<Move>)
    ensures Play(w, xs + ys) == Play(Play(w, xs), ys)
    decreases |xs|
  {
    if xs == [] {
      assert xs + ys == ys;
    } else {
      assert (xs + ys)[1..] == xs[1..] + ys && (xs + ys)[0] == xs[0];
      PlayJoin(if CanMove(w, xs[0]) then Next(w, xs[0]) else w, xs[1..], ys);
    }
  }

  // ---------------------------------------------------------------------------------------------
  // Two exchanges without any failure: b notifies, a acknowledges

  function ExchangeMoves(): seq<Move> {
    [Move(false, Local(EvNotify(1), OK)), Move(true, Fetch(OK)), Move(false, Fetch(OK)),
     Move(true, Local(EvUserAck(0), OK)), Move(false, Fetch(OK)), Move(true, Fetch(OK))]
  }

  /** One side at rest after k messages in each direction. */
  predicate AtRest(s: Side, k: nat) {
    && s.m.apms == ApmsOpen && s.m.apmr == ApmrOpen && s.m.alpmi == AlpmiWAlarm && s.m.alpmr == AlpmrWNotify
    && s.m.saved.None? && s.m.send == s.m.exp == Seq(k) && s.m.expO == Seq(k - 1)
    && s.conf == |s.acc| == k && s.out == [] && s.failed == 0
  }

  predicate Paired(w: World, k: nat) {
    AtRest(w.a, k) && AtRest(w.b, k) && w.b.m.retries > 0
  }

  /** b's notification is sent, accepted and confirmed. */
  lemma NotifyAndConfirm(w: World, k: nat) returns (w3: World)
    requires Paired(w, k)
    ensures var ms := ExchangeMoves();
      && CanMove(w, ms[0]) && CanMove(Next(w, ms[0]), ms[1]) && CanMove(Next(Next(w, ms[0]), ms[1]), ms[2])
      && w3 == Next(Next(Next(w, ms[0]), ms[1]), ms[2])
    ensures w3.a.m == w.a.m.(alpmr := AlpmrWUserAck, exp := Seq(k + 1), expO := Seq(k))
    ensures w3.a.conf == k && |w3.a.acc| == k + 1 && w3.a.out == [] && w3.a.failed == 0
    ensures w3.b.m == w.b.m.(alpmi := AlpmiWAck, send := Seq(k + 1), sendO := Seq(k), resend := w3.b.m.resend,
                             timers := w3.b.m.timers, handle := true)
    ensures w3.b.conf == k + 1 && |w3.b.acc| == k && w3.b.out == [] && w3.b.failed == 0
  {
    SeqNext(k);
    var ms := ExchangeMoves();
    var w1 := Next(w, ms[0]);
    assert w1.b.out[0].frame == Frame(1, DataPdu, true, Seq(k), Seq(k - 1), 1, Notification(1, true));
    var w2 := Next(w1, ms[1]);
    assert w2.a.out[0].frame == Frame(1, AckPdu, false, w.a.m.sendO, Seq(k), 0, NoBody);
    w3 := Next(w2, ms[2]);
  }

  /** a's acknowledgement is sent, accepted and confirmed. */
  lemma AckAndConfirm(w: World, k: nat) returns (w3: World)
    requires w.a.m.apms == ApmsOpen && w.a.m.apmr == ApmrOpen && w.a.m.alpmi == AlpmiWAlarm
    requires w.a.m.alpmr == AlpmrWUserAck && w.a.m.saved.None? && w.a.m.send == Seq(k)
    requires w.a.conf == k && w.a.out == []
    requires w.b.m.apms == ApmsOpen && w.b.m.apmr == ApmrOpen && w.b.m.alpmi == AlpmiWAck && w.b.m.exp == Seq(k)
    requires |w.b.acc| == k && w.b.out == []
    ensures var ms := ExchangeMoves();
      && CanMove(w, ms[3]) && CanMove(Next(w, ms[3]), ms[4]) && CanMove(Next(Next(w, ms[3]), ms[4]), ms[5])
      && w3 == Next(Next(Next(w, ms[3]), ms[4]), ms[5])
    ensures w3.a.m == w.a.m.(alpmr := AlpmrWNotify, send := Seq(k + 1), sendO := Seq(k), resend := w3.a.m.resend,
                             timers := w3.a.m.timers, handle := true)
    ensures w3.a.conf == k + 1 && w3.a.acc == w.a.acc && w3.a.out == [] && w3.a.failed == w.a.failed
    ensures w3.b.m == w.b.m.(alpmi := AlpmiWAlarm, exp := Seq(k + 1), expO := Seq(k))
    ensures w3.b.conf == w.b.conf && |w3.b.acc| == k + 1 && w3.b.out == [] && w3.b.failed == w.b.failed
  {
    SeqNext(k);
    var ms := ExchangeMoves();
    var w1 := Next(w, ms[3]);
    assert w1.a.out[0].frame == Frame(1, DataPdu, true, Seq(k), w.a.m.expO, 1, AlarmAck(0));
    var w2 := Next(w1, ms[4]);
    assert w2.b.out[0].frame == Frame(1, AckPdu, false, w.b.m.sendO, Seq(k), 0, NoBody);
    w3 := Next(w2, ms[5]);
  }

  lemma Exchange(w: World, k: nat) returns (w': World)
    requires Paired(w, k)
    ensures w' == Play(w, ExchangeMoves()) && Paired(w', k + 1)
  {
    var w3 := NotifyAndConfirm(w, k);
    w' := AckAndConfirm(w3, k);
    PlayThree(w, w3, ExchangeMoves());
    PlayThree(w3, w', ExchangeMoves()[3..]);
    assert ExchangeMoves()[3..][3..] == [];
  }

  /** Three possible moves in a row. */
  lemma PlayThree(w: World, w3: World, ms: seq<Move>)
    requires |ms| >= 3 && CanMove(w, ms[0]) && CanMove(Next(w, ms[0]), ms[1])
    requires CanMove(Next(Next(w, ms[0]), ms[1]), ms[2]) && w3 == Next(Next(Next(w, ms[0]), ms[1]), ms[2])
    ensures Play(w, ms) == Play(w3, ms[3..])
  {
    PlayOne(w, ms[0], ms[1..]);
    PlayOne(Next(w, ms[0]), ms[1], ms[2..]);
    PlayOne(Next(Next(w, ms[0]), ms[1]), ms[2], ms[3..]);
    assert ms == [ms[0]] + ms[1..] && ms[1..] == [ms[1]] + ms[2..] && ms[2..] == [ms[2]] + ms[3..];
  }

  // ---------------------------------------------------------------------------------------------
  // b's third notification is lost, and while b waits for its TACK, a sends without limit

  /** b waits for the TACK of its third message; its frame was built when b had accepted two messages. */
  predicate Waiting(s: Side) {
    && s.m.apms == ApmsWTack && s.m.timers > 0 && s.m.resend > 0
    && s.m.saved == Some(Frame(1, DataPdu, true, 1, 0, 1, Notification(7, true)))
  }

  /** a has had n messages confirmed, all but two of which failed locally, and b has accepted the same n. */
  predicate Quiet(w: World, n: nat) {
    && w.a.m.apms == ApmsOpen && w.a.m.apmr == ApmrOpen && w.a.m.alpmi == AlpmiWAlarm && w.a.m.alpmr == AlpmrWNotify
    && w.a.m.send == Seq(n) && w.a.m.exp == 1 && w.a.m.expO == 0 && w.a.m.saved.None?
    && w.a.conf == n == w.a.failed + 2 && |w.a.acc| == 2 && w.a.out == []
    && w.b.m.apmr == ApmrOpen && w.b.m.alpmr == AlpmrWNotify && w.b.m.send == 1 && Waiting(w.b)
    && w.b.m.exp == Seq(n) && w.b.m.expO == Seq(n - 1)
    && |w.b.acc| == n && w.b.out == [] && w.b.failed == 0
  }

  function LostNotification(): seq<Move> {
    [Move(false, Local(EvNotify(7), OK)), Move(true, Lose(0))]
  }

  lemma NotificationLost(w: World) returns (w': World)
    requires Paired(w, 2)
    ensures w' == Play(w, LostNotification()) && Quiet(w', 2)
  {
    var ms := LostNotification();
    PlayOne(w, ms[0], ms[1..]);
    PlayOne(Next(w, ms[0]), ms[1], []);
    w' := Next(Next(w, ms[0]), ms[1]);
  }

  /** One message from a: its timer cannot be started, b's first TACK cannot be sent, and the frame is duplicated. */
  function RoundMoves(): seq<Move> {
    [Move(true, Local(EvNotify(0), NO_TIMER)), Move(false, Duplicate(0)), Move(false, Fetch(NO_SEND)),
     Move(false, Fetch(OK)), Move(true, Fetch(OK))]
  }

  function Repeat(body: seq<Move>, k: nat): seq<Move> {
    if k == 0 then [] else body + Repeat(body, k - 1)
  }

  function Rounds(k: nat): seq<Move> {
    Repeat(RoundMoves(), k)
  }

  /** a sends, and the frame is doubled on the way. */
  lemma SendTwice(w: World, n: nat) returns (w': World, f: Frame)
    requires Quiet(w, n)
    ensures f == Frame(1, DataPdu, true, Seq(n), 0, 1, Notification(0, true))
    ensures CanMove(w, RoundMoves()[0])
    ensures var w1 := Next(w, RoundMoves()[0]); CanMove(w1, RoundMoves()[1]) && w' == Next(w1, RoundMoves()[1])
    ensures w'.b == w.b && |w'.a.out| == 2 && w'.a.out[0].frame == f && w'.a.out[1].frame == f
    ensures w'.a.m == w.a.m.(apms := ApmsWTack, resend := w.a.m.retries, saved := Some(f), handle := false)
    ensures w'.a.conf == n && w'.a.acc == w.a.acc && w'.a.failed == w.a.failed + 1
  {
    f := Frame(1, DataPdu, true, Seq(n), 0, 1, Notification(0, true));
    var w1 := Next(w, RoundMoves()[0]);
    assert w1.a.out[0].frame == f;
    w' := Next(w1, RoundMoves()[1]);
  }

  /** b accepts the first copy without being able to say so, and answers the second. */
  lemma AcceptTwice(w: World, n: nat, f: Frame) returns (w': World)
    requires f == Frame(1, DataPdu, true, Seq(n), 0, 1, Notification(0, true))
    requires |w.a.out| == 2 && w.a.out[0].frame == f && w.a.out[1].frame == f
    requires w.b.m.apmr == ApmrOpen && w.b.m.alpmr == AlpmrWNotify && w.b.m.send == 1
    requires w.b.m.exp == Seq(n) && w.b.m.expO == Seq(n - 1) && |w.b.acc| == n && w.b.out == []
    ensures CanMove(w, RoundMoves()[2])
    ensures var w1 := Next(w, RoundMoves()[2]); CanMove(w1, RoundMoves()[3]) && w' == Next(w1, RoundMoves()[3])
    ensures w'.a == w.a.(out := []) && |w'.b.acc| == n + 1 && w'.b.failed == w.b.failed
    ensures w'.b.m == w.b.m.(exp := Seq(n + 1), expO := Seq(n))
    ensures |w'.b.out| == 1 && w'.b.out[0].frame == Frame(1, AckPdu, false, w.b.m.sendO, Seq(n), 0, NoBody)
  {
    SeqNext(n);
    SeqInjective(n, n + 1);
    var w1 := Next(w, RoundMoves()[2]);
    assert w1.b.m == w.b.m.(exp := Seq(n + 1), expO := Seq(n));
    w' := Next(w1, RoundMoves()[3]);
  }

  /** Five possible moves in a row. */
  lemma PlayFive(w: World, w2: World, w4: World)
    requires var ms := RoundMoves();
      && CanMove(w, ms[0]) && CanMove(Next(w, ms[0]), ms[1]) && w2 == Next(Next(w, ms[0]), ms[1])
      && CanMove(w2, ms[2]) && CanMove(Next(w2, ms[2]), ms[3]) && w4 == Next(Next(w2, ms[2]), ms[3])
      && CanMove(w4, ms[4])
    ensures Play(w, RoundMoves()) == Next(w4, RoundMoves()[4])
  {
    var ms := RoundMoves();
    PlayOne(w, ms[0], ms[1..]);
    PlayOne(Next(w, ms[0]), ms[1], ms[2..]);
    PlayOne(w2, ms[2], ms[3..]);
    PlayOne(Next(w2, ms[2]), ms[3], ms[4..]);
    PlayOne(w4, ms[4], []);
  }

  /** A whole round. */
  lemma Round(w: World, n: nat) returns (w': World)
    requires Quiet(w, n)
    ensures w' == Play(w, RoundMoves()) && Quiet(w', n + 1)
  {
    SeqNext(n);
    var w2, f := SendTwice(w, n);
    var w4 := AcceptTwice(w2, n, f);
    w' := ConfirmOnce(w4, n);
    PlayFive(w, w2, w4);
  }

  /** a takes the TACK. */
  lemma ConfirmOnce(w: World, n: nat) returns (w': World)
    requires |w.b.out| == 1 && exists k: nat :: w.b.out[0].frame == Frame(1, AckPdu, false, k, Seq(n), 0, NoBody)
    requires w.a.m.apms == ApmsWTack && w.a.m.send == Seq(n) && w.a.m.apmr == ApmrOpen && w.a.m.alpmr == AlpmrWNotify
    ensures CanMove(w, RoundMoves()[4]) && w' == Next(w, RoundMoves()[4])
    ensures w'.a.m == w.a.m.(apms := ApmsOpen, saved := None, send := Seq(n + 1), sendO := Seq(n))
    ensures w'.a == w.a.(m := w'.a.m, conf := w.a.conf + 1) && w'.b == w.b.(out := [])
  {
    SeqNext(n);
    w' := Next(w, RoundMoves()[4]);
    assert w'.a.out == w.a.out + [];
  }

  /** What one run of `body` keeps while counting one up, k runs keep while counting k up. */
  lemma {:induction false} RepeatKeeps(p: (World, nat) -> bool, body: seq<Move>, w: World, n: nat, k: nat)
    requires p(w, n) && forall v, m: nat :: p(v, m) ==> p(Play(v, body), m + 1)
    ensures p(Play(w, Repeat(body, k)), n + k)
    decreases k
  {
    if k > 0 {
      RepeatKeeps(p, body, Play(w, body), n + 1, k - 1);
      PlayJoin(w, body, Repeat(body, k - 1));
    }
  }

  lemma ManyRounds(w: World, n: nat, k: nat) returns (w': World)
    requires Quiet(w, n)
    ensures w' == Play(w, Rounds(k)) && Quiet(w', n + k)
  {
    var p := (v: World, m: nat) => Quiet(v, m);
    forall v, m: nat | p(v, m)
      ensures p(Play(v, RoundMoves()), m + 1)
    {
      var v' := Round(v, m);
    }
    RepeatKeeps(p, RoundMoves(), w, n, k);
    w' := Play(w, Rounds(k));
  }

  // ---------------------------------------------------------------------------------------------
  // The end: a sends one more notification, accepts b's late one, acknowledges it, and meets its second copy

  /** a's notification is sent and confirmed; b's timer fires, and its frame is duplicated. */
  function LastNotification(): seq<Move> {
    [Move(true, Local(EvNotify(0), OK)), Move(false, Fetch(OK)), Move(true, Fetch(OK)),
     Move(false, Local(EvTimer, OK)), Move(true, Duplicate(0))]
  }

  function LateFrame(): Frame {
    Frame(1, DataPdu, true, 1, 0, 1, Notification(7, true))
  }

  lemma NotifiedOnce(w: World) returns (w3: World)
    requires Quiet(w, 0x8000)
    ensures var ms := LastNotification();
      && CanMove(w, ms[0]) && CanMove(Next(w, ms[0]), ms[1]) && CanMove(Next(Next(w, ms[0]), ms[1]), ms[2])
      && w3 == Next(Next(Next(w, ms[0]), ms[1]), ms[2])
    ensures w3.a.m == w.a.m.(alpmi := AlpmiWAck, send := 0, sendO := 0x7fff, resend := w3.a.m.resend,
                             timers := w3.a.m.timers, handle := true)
    ensures w3.a.conf == 0x8001 && w3.a.out == [] && w3.a.failed == w.a.failed
    ensures w3.b.m.saved == w.b.m.saved && w3.b.m.timers == w.b.m.timers && w3.b.m.resend == w.b.m.resend
    ensures w3.b.m.apms == ApmsWTack && |w3.b.acc| == 0x8001 && w3.b.out == [] && w3.b.failed == 0
  {
    var ms := LastNotification();
    var w1 := Next(w, ms[0]);
    assert w1.a.out[0].frame == Frame(1, DataPdu, true, 0x7fff, 0, 1, Notification(0, true));
    var w2 := Next(w1, ms[1]);
    assert w2.b.out[0].frame == Frame(1, AckPdu, false, w.b.m.sendO, 0x7fff, 0, NoBody);
    w3 := Next(w2, ms[2]);
  }

  /** b's timer fires, and the channel duplicates its frame. */
  lemma SentLate(w3: World) returns (w': World)
    requires w3.b.m.timers > 0 && w3.b.m.apms == ApmsWTack && w3.b.m.resend > 0 && w3.b.m.saved == Some(LateFrame())
    requires w3.b.out == []
    ensures var ms := LastNotification();
      CanMove(w3, ms[3]) && CanMove(Next(w3, ms[3]), ms[4]) && w' == Next(Next(w3, ms[3]), ms[4])
    ensures w'.a == w3.a && w'.b.acc == w3.b.acc && w'.b.failed == w3.b.failed
    ensures |w'.b.out| == 2 && w'.b.out[0].frame == w'.b.out[1].frame == LateFrame()
  {
    var ms := LastNotification();
    var w4 := Next(w3, ms[3]);
    assert |w4.b.out| == 1 && w4.b.out[0].frame == LateFrame();
    w' := Next(w4, ms[4]);
  }

  lemma LateFrameTwice(w: World) returns (w': World)
    requires Quiet(w, 0x8000)
    ensures w' == Play(w, LastNotification())
    ensures w'.a.m.apms == ApmsOpen && w'.a.m.apmr == ApmrOpen && w'.a.m.alpmr == AlpmrWNotify && w'.a.m.saved.None?
    ensures w'.a.m.send == 0 && w'.a.m.exp == 1 && w'.a.conf == 0x8001 && Failed(w') == 0x7ffe
    ensures |w'.b.acc| == 0x8001 && |w'.b.out| == 2 && w'.b.out[0].frame == w'.b.out[1].frame == LateFrame()
  {
    var ms := LastNotification();
    var w3 := NotifiedOnce(w);
    w' := SentLate(w3);
    PlayThree(w, w3, ms);
    PlayTwo(w3, ms[3..]);
  }

  lemma PlayTwo(w: World, ms: seq<Move>)
    requires |ms| == 2 && CanMove(w, ms[0]) && CanMove(Next(w, ms[0]), ms[1])
    ensures Play(w, ms) == Next(Next(w, ms[0]), ms[1])
  {
    PlayOne(w, ms[0], ms[1..]);
    PlayOne(Next(w, ms[0]), ms[1], []);
    assert ms == [ms[0]] + ms[1..] && ms[1..] == [ms[1]] + [];
  }

  function Finale(): seq<Move> {
    [Move(true, Fetch(OK)), Move(true, Local(EvUserAck(0), OK)), Move(true, Fetch(OK))]
  }

  /** The first copy is accepted; the acknowledgement of it is outstanding when the second copy confirms it. */
  lemma FinaleConfirms(w: World) returns (w': World)
    requires w.a.m.apms == ApmsOpen && w.a.m.apmr == ApmrOpen && w.a.m.alpmr == AlpmrWNotify && w.a.m.saved.None?
    requires w.a.m.send == 0 && w.a.m.exp == 1 && w.a.conf == 0x8001
    requires |w.b.acc| == 0x8001 && |w.b.out| == 2 && w.b.out[0].frame == w.b.out[1].frame == LateFrame()
    ensures w' == Play(w, Finale()) && w'.a.conf == 0x8002 && |w'.b.acc| == 0x8001 && Failed(w') == Failed(w)
  {
    var ms := Finale();
    w' := Next(Next(Next(w, ms[0]), ms[1]), ms[2]);
    PlayThree(w, w', ms);
    assert ms[3..] == [];
  }

  /** The run: two exchanges, b's lost notification, 0x7ffe rounds, and the end. */
  function StaleRun(): seq<Move> {
    (ExchangeMoves() + ExchangeMoves() + LostNotification()) + (Rounds(0x7ffe) + (LastNotification() + Finale()))
  }

  lemma FirstHalf(retriesA: nat, retriesB: nat) returns (w: World)
    requires retriesB > 0
    ensures w == Play(Start(true, retriesA, retriesB), ExchangeMoves() + ExchangeMoves() + LostNotification()) && Quiet(w, 2)
  {
    var w0 := Start(true, retriesA, retriesB);
    assert Paired(w0, 0);
    var w1 := Exchange(w0, 0);
    var w2 := Exchange(w1, 1);
    w := NotificationLost(w2);
    PlayJoin(w0, ExchangeMoves(), ExchangeMoves());
    PlayJoin(w0, ExchangeMoves() + ExchangeMoves(), LostNotification());
  }

  lemma SecondHalf(w: World) returns (w': World)
    requires Quiet(w, 2)
    ensures w' == Play(w, Rounds(0x7ffe) + (LastNotification() + Finale()))
    ensures w'.a.conf == 0x8002 && |w'.b.acc| == 0x8001 && Failed(w') == 0x7ffe
  {
    var w1 := ManyRounds(w, 2, 0x7ffe);
    var w2 := LateFrameTwice(w1);
    w' := FinaleConfirms(w2);
    PlayJoin(w1, LastNotification(), Finale());
    PlayJoin(w, Rounds(0x7ffe), LastNotification() + Finale());
  }

  /** With one failed notification more than AcceptedInOrder allows, a takes a message for delivered that b has not accepted. */
  lemma StaleRunConfirmsUnaccepted(retriesA: nat, retriesB: nat)
    requires retriesB > 0
    ensures var w := Play(Start(true, retriesA, retriesB), StaleRun());
      w.a.conf == |w.b.acc| + 1 && Failed(w) == MAX_FAILED + 1
  {
    var w := FirstHalf(retriesA, retriesB);
    var w' := SecondHalf(w);
    PlayJoin(Start(true, retriesA, retriesB), ExchangeMoves() + ExchangeMoves() + LostNotification(),
             Rounds(0x7ffe) + (LastNotification() + Finale()));
  }

  /** What AcceptedInOrder promises of a state. */
  predicate Delivered(w: World) {
    w.b.acc <= w.a.sent && w.a.acc <= w.b.sent && InStep(w.a, w.b) && InStep(w.b, w.a)
  }

  /** A bound on failed notifications makes all runs deliver in order if and only if it is at most MAX_FAILED. */
  lemma ExactBound(bound: nat)
    ensures (forall high, retriesA: nat, retriesB: nat, moves: seq<Move> ::
               Failed(Play(Start(high, retriesA, retriesB), moves)) <= bound
               ==> Delivered(Play(Start(high, retriesA, retriesB), moves)))
       <==> bound <= MAX_FAILED
  {
    if bound <= MAX_FAILED {
      forall high, retriesA: nat, retriesB: nat, moves: seq<Move>
        | Failed(Play(Start(high, retriesA, retriesB), moves)) <= bound
        ensures Delivered(Play(Start(high, retriesA, retriesB), moves))
      {
        AcceptedInOrder(high, retriesA, retriesB, moves);
      }
    } else {
      StaleRunConfirmsUnaccepted(3, 3);
      assert !Delivered(Play(Start(true, 3, 3), StaleRun()));
    }
  }
}
