/**
 Provider and consumer over whole runs: the provider's application sets values, frames are sent and may be lost, other stations
 send frames with the same frame id, the data hold timer expires, the reading application gets the newest buffer; in any order.
 */
module CyclicRuns {
  import opened Bytes
  import opened Options
  import opened Provider
  import opened Consumer
  import opened CyclicData
  import CycleCounter
  import Ethernet

  /** What does not change: how the consumer is registered, and what both ends know of the frame. */
  datatype Path = Path(m: seq<Ethernet.Entry>, handler: nat, cfg: Config, descs: seq<Desc>)

  predicate ValidPath(p: Path) {
    && ValidConfig(p.cfg) && InBounds(p.descs, p.cfg.inLength) && InBounds(p.descs, FRAME_BUFFER_SIZE) && AllApart(p.descs)
    && Ethernet.Lookup(p.m, p.cfg.frameId) == Some(p.handler)
  }

  datatype Joint = Joint(
    area: seq<byte>,        // the provider's data
    counter: nat,           // of the last frame sent
    cpm: Cpm,
    // history
    total: nat,             // by how much the counter has advanced since the last accepted frame
    sent: nat,              // number of frames sent since then
    made: seq<byte>,        // the provider's data when that frame was sent
    calls: seq<SetCall>,    // by the provider's application so far
    shown: nat)             // number of calls before that frame

  datatype Move =
    | Set(call: SetCall)
    | Stray(f: seq<byte>, id: nat)    // a frame that another station sends, or a damaged one
    | Send(status: byte, id: nat, lost: bool)
    | Expired
    | Got

  /** Both ends after activation. The marker -1 of the consumer counts as one advance before the first frame. */
  function Started(p: Path, dataHoldFactor: nat): Joint {
    var area := Zeros(FRAME_BUFFER_SIZE);
    Joint(area, 0, Activated(p.cfg.sa, dataHoldFactor, p.cfg.cSduLength), 1, 0, area, [], 0)
  }

  /** The newest data that the consumer holds, from the start of the data area. */
  function Newest(c: Cpm): Option<seq<byte>>
    requires Consistent(c)
  {
    if c.newBuf then Some(c.cpm.value.bytes[c.bufferPos..])
    else if c.app.Some? then Some(c.app.value.bytes[c.bufferPos..])
    else None
  }

  /** What every run keeps. */
  ghost predicate Linked(p: Path, j: Joint)
    requires ValidPath(p)
  {
    && Consistent(j.cpm) && j.cpm.sa == p.cfg.sa && j.cpm.bufferLength == 16 + p.cfg.cSduLength + 4
    && j.counter < CycleCounter.WORD && j.counter == (j.cpm.cycle + j.total) % CycleCounter.WORD
    && |j.area| == FRAME_BUFFER_SIZE == |j.made|
    && (Newest(j.cpm).Some? ==> Shows(p, Newest(j.cpm).value, j.made))
  }

  /** The data of the configured length are those of the area. */
  predicate Shows(p: Path, data: seq<byte>, area: seq<byte>) {
    p.cfg.inLength <= |data| && p.cfg.inLength <= |area| && data[..p.cfg.inLength] == area[..p.cfg.inLength]
  }

  /**
   Another source address than the provider's, or a transfer status that is not 0, or no valid data, or another length without VLAN
   tags than the configured one.
   */
  predicate Foreign(p: Path, f: seq<byte>) {
    || |f| < 16 || f[6..12] != p.cfg.sa || f[|f| - 1] != 0 || !DataValid(f[|f| - 2])
    || (Ethernet.Receive(p.m, f).Handled? && |f| - Ethernet.Receive(p.m, f).framePos != 6 + p.cfg.cSduLength)
  }

  predicate Possible(p: Path, mv: Move) {
    mv.Stray? ==> |mv.f| < WORD && Foreign(p, mv.f)
  }

  /** The frame that is sent next. */
  function NextFrame(p: Path, j: Joint, status: byte): (f: seq<byte>)
    requires ValidPath(p) && Linked(p, j)
    ensures |f| < WORD
  {
    FrameBytes(p.cfg, j.area, CycleCounter.Next(j.counter, p.cfg.interval), status, 0)
  }

  /** The consumer accepts the frame that is sent next. */
  predicate Takes(p: Path, j: Joint, status: byte, id: nat)
    requires ValidPath(p) && Linked(p, j)
  {
    var b := Buf(id, NextFrame(p, j, status), 18);
    Delivered(b) && Accepts(j.cpm, b)
  }

  function Sent(p: Path, j: Joint, status: byte, id: nat, lost: bool): Joint
    requires ValidPath(p) && Linked(p, j)
  {
    var step := CycleCounter.Advance(j.counter, p.cfg.interval);
    var counter := CycleCounter.Next(j.counter, p.cfg.interval);
    var c := if lost then j.cpm else Arrives(p.m, p.handler, j.cpm, NextFrame(p, j, status), id);
    if !lost && Takes(p, j, status, id) then Joint(j.area, counter, c, 0, 0, j.area, j.calls, |j.calls|)
    else j.(counter := counter, cpm := c, total := j.total + step, sent := j.sent + 1)
  }

  function Step(p: Path, j: Joint, mv: Move): Joint
    requires ValidPath(p) && Linked(p, j) && Possible(p, mv)
  {
    match mv
    case Set(call) => j.(area := PatchAll(j.area, p.descs, CallWrites(p.descs, call)), calls := j.calls + [call])
    case Stray(f, id) => j.(cpm := Arrives(p.m, p.handler, j.cpm, f, id))
    case Send(status, id, lost) => Sent(p, j, status, id, lost)
    case Expired => j.(cpm := Expire(j.cpm).0)
    case Got => j.(cpm := GetBuf(j.cpm).0)
  }

  lemma StartedLinked(p: Path, dataHoldFactor: nat)
    requires ValidPath(p)
    ensures Linked(p, Started(p, dataHoldFactor))
  {
  }

  /**
   Whatever was lost before, the next frame, if it arrives, is accepted if and only if the consumer runs, the frame is valid,
   and the counter has advanced by 1 to 61440 since the last accepted frame, modulo 65536.
   */
  lemma AcceptedExactly(p: Path, j: Joint, status: byte, id: nat)
    requires ValidPath(p) && Linked(p, j)
    ensures Takes(p, j, status, id) <==>
      && j.cpm.state != WStart && DataValid(status)
      && CycleCounter.InStep(j.total + CycleCounter.Advance(j.counter, p.cfg.interval))
  {
    CycleCounter.NextNewer(j.cpm.cycle, j.total, j.counter, p.cfg.interval);
    if j.cpm.state != WStart {
      FinishedFrameAccepted(j.cpm, p.cfg, j.area, CycleCounter.Next(j.counter, p.cfg.interval), status, id);
    }
  }

  /** A frame that arrives reaches the consumer. */
  lemma ArrivesThere(p: Path, j: Joint, status: byte, id: nat)
    requires ValidPath(p) && Linked(p, j)
    ensures var f := NextFrame(p, j, status);
      Delivered(Buf(id, f, 18)) && Arrives(p.m, p.handler, j.cpm, f, id) == DataInd(j.cpm, Buf(id, f, 18)).0
  {
    FoundBehindTag(p.m, p.cfg, j.area, CycleCounter.Next(j.counter, p.cfg.interval), status, 0);
  }

  /** The consumer with a frame that it has accepted. */
  lemma TakenShows(p: Path, c: Cpm, area: seq<byte>, counter: nat, status: byte, id: nat)
    requires ValidPath(p) && Consistent(c) && Matches(c, p.cfg) && |area| == FRAME_BUFFER_SIZE && counter < WORD
    requires var b := Buf(id, FrameBytes(p.cfg, area, counter, status, 0), 18); Delivered(b) && Accepts(c, b)
    ensures var c1 := DataInd(c, Buf(id, FrameBytes(p.cfg, area, counter, status, 0), 18)).0;
      && Consistent(c1) && Matches(c1, p.cfg) && c1.cycle == counter && Newest(c1).Some?
      && |Newest(c1).value| >= p.cfg.inLength && Newest(c1).value[..p.cfg.inLength] == area[..p.cfg.inLength]
  {
    var f := FrameBytes(p.cfg, area, counter, status, 0);
    FrameFields(p.cfg, area, counter, status, 0);
    StepKeepsConsistent(c, Frame(Buf(id, f, 18)));
    assert Newest(DataInd(c, Buf(id, f, 18)).0) == Some(f[DATA_POS..]);
    assert f[DATA_POS..][..p.cfg.inLength] == f[DATA_POS..DATA_POS + p.cfg.inLength];
  }

  lemma TakenLinked(p: Path, j: Joint, status: byte, id: nat)
    requires ValidPath(p) && Linked(p, j) && Takes(p, j, status, id)
    ensures Linked(p, Sent(p, j, status, id, false))
    ensures Sent(p, j, status, id, false).cpm.cycle == CycleCounter.Next(j.counter, p.cfg.interval)
  {
    ArrivesThere(p, j, status, id);
    TakenShows(p, j.cpm, j.area, CycleCounter.Next(j.counter, p.cfg.interval), status, id);
    CycleCounter.OwnRemainder(CycleCounter.Next(j.counter, p.cfg.interval));
  }

  lemma NotTakenLinked(p: Path, j: Joint, status: byte, id: nat, lost: bool)
    requires ValidPath(p) && Linked(p, j) && (lost || !Takes(p, j, status, id))
    ensures Sent(p, j, status, id, lost).cpm == j.cpm && Linked(p, Sent(p, j, status, id, lost))
  {
    ArrivesThere(p, j, status, id);
    CycleCounter.NextNewer(j.cpm.cycle, j.total, j.counter, p.cfg.interval);
  }

  lemma SentLinked(p: Path, j: Joint, status: byte, id: nat, lost: bool)
    requires ValidPath(p) && Linked(p, j)
    ensures Linked(p, Sent(p, j, status, id, lost))
  {
    if !lost && Takes(p, j, status, id) {
      TakenLinked(p, j, status, id);
    } else {
      NotTakenLinked(p, j, status, id, lost);
    }
  }

  /** Whatever other stations send, the consumer takes nothing of it. */
  lemma StrayIgnored(p: Path, c: Cpm, f: seq<byte>, id: nat)
    requires Consistent(c) && c.sa == p.cfg.sa && c.bufferLength == 16 + p.cfg.cSduLength + 4 && |f| < WORD && Foreign(p, f)
    ensures Arrives(p.m, p.handler, c, f, id) == c
  {
    if Ethernet.Receive(p.m, f).Handled? {
      HandledIsDelivered(p.m, f, id);
      TakenByOctets(c, Buf(id, f, Ethernet.Receive(p.m, f).framePos));
    }
  }

  /** Neither an expiry nor a read changes what the newest data is. */
  lemma QuietLinked(p: Path, j: Joint)
    requires ValidPath(p) && Linked(p, j)
    ensures Linked(p, j.(cpm := Expire(j.cpm).0)) && Linked(p, j.(cpm := GetBuf(j.cpm).0))
  {
    StepKeepsConsistent(j.cpm, Expiry);
    StepKeepsConsistent(j.cpm, Read);
  }

  lemma StepLinked(p: Path, j: Joint, mv: Move)
    requires ValidPath(p) && Linked(p, j) && Possible(p, mv)
    ensures Linked(p, Step(p, j, mv))
  {
    match mv {
      case Set(_) =>
      case Stray(f, id) => StrayIgnored(p, j.cpm, f, id);
      case Send(status, id, lost) => SentLinked(p, j, status, id, lost);
      case _ => QuietLinked(p, j);
    }
  }

  function Run(p: Path, j: Joint, mvs: seq<Move>): (r: Joint)
    requires ValidPath(p) && Linked(p, j) && forall mv <- mvs :: Possible(p, mv)
    ensures Linked(p, r)
    decreases |mvs|
  {
    if mvs == [] then j
    else
      assert mvs[0] in mvs && forall mv <- mvs[1..] :: mv in mvs;
      StepLinked(p, j, mvs[0]);
      Run(p, Step(p, j, mvs[0]), mvs[1..])
  }

  /** The provider's data are what the calls have made of them, now and when the last accepted frame was sent. */
  ghost predicate MadeByCalls(p: Path, j: Joint)
    requires ValidPath(p)
  {
    && j.shown <= |j.calls|
    && j.area == AfterCalls(Zeros(FRAME_BUFFER_SIZE), p.descs, j.calls)
    && j.made == AfterCalls(Zeros(FRAME_BUFFER_SIZE), p.descs, j.calls[..j.shown])
  }

  lemma SetMade(p: Path, j: Joint, call: SetCall)
    requires ValidPath(p) && MadeByCalls(p, j)
    ensures MadeByCalls(p, j.(area := PatchAll(j.area, p.descs, CallWrites(p.descs, call)), calls := j.calls + [call]))
  {
    OneMoreCall(Zeros(FRAME_BUFFER_SIZE), p.descs, j.calls, call);
    assert (j.calls + [call])[..j.shown] == j.calls[..j.shown];
  }

  lemma StepMade(p: Path, j: Joint, mv: Move)
    requires ValidPath(p) && Linked(p, j) && Possible(p, mv) && MadeByCalls(p, j)
    ensures MadeByCalls(p, Step(p, j, mv))
  {
    match mv {
      case Set(call) => SetMade(p, j, call);
      case Send(_, _, _) => assert j.calls[..|j.calls|] == j.calls;
      case _ =>
    }
  }

  lemma {:induction false} RunMade(p: Path, j: Joint, mvs: seq<Move>)
    requires ValidPath(p) && Linked(p, j) && (forall mv <- mvs :: Possible(p, mv)) && MadeByCalls(p, j)
    ensures MadeByCalls(p, Run(p, j, mvs))
    decreases |mvs|
  {
    if mvs != [] {
      assert mvs[0] in mvs && forall mv <- mvs[1..] :: mv in mvs;
      StepLinked(p, j, mvs[0]);
      StepMade(p, j, mvs[0]);
      RunMade(p, Step(p, j, mvs[0]), mvs[1..]);
    }
  }

  /** A buffer that the application gets starts with the provider's data of when the last accepted frame was sent. */
  lemma GotShows(p: Path, j: Joint)
    requires ValidPath(p) && Linked(p, j)
    ensures var c := GetBuf(j.cpm).0; Consistent(c) && !c.newBuf && (c.app.Some? ==> Shows(p, Area(c), j.made))
  {
    StepKeepsConsistent(j.cpm, Read);
    var c := GetBuf(j.cpm).0;
    if c.app.Some? {
      assert Newest(c) == Newest(j.cpm) == Some(Area(c));
    }
  }

  /**
   After any run, whatever frames were lost or rejected, and whatever other stations sent: if the application gets a buffer,
   every part of every submodule holds the value that the provider's application gave to it last, of the calls before the last
   accepted frame was sent.
   */
  lemma ReadsAsLastAccepted(p: Path, dataHoldFactor: nat, mvs: seq<Move>, ix: nat, part: Part)
    requires ValidPath(p) && (forall mv <- mvs :: Possible(p, mv)) && ix < |p.descs|
    ensures Linked(p, Started(p, dataHoldFactor)) && PartEnds(p.descs, p.cfg.inLength, ix, part)
    ensures var j := Run(p, Started(p, dataHoldFactor), mvs); var c := GetBuf(j.cpm).0;
      && Consistent(c) && !c.newBuf && j.shown <= |j.calls|
      && (c.app.Some? ==> IsLastGiven(Slice(Area(c), p.descs[ix], part), p.descs, ix, part, j.calls[..j.shown]))
  {
    StartedLinked(p, dataHoldFactor);
    RunMade(p, Started(p, dataHoldFactor), mvs);
    var j := Run(p, Started(p, dataHoldFactor), mvs);
    assert PartEnds(p.descs, p.cfg.inLength, ix, part) && PartEnds(p.descs, FRAME_BUFFER_SIZE, ix, part);
    GotShows(p, j);
    var c := GetBuf(j.cpm).0;
    if c.app.Some? {
      SliceOfPrefix(Area(c), j.made, p.cfg.inLength, p.descs[ix], part);
      LastSetStays(FRAME_BUFFER_SIZE, p.descs, j.calls[..j.shown], ix, part);
    }
  }

  // ---------------------------------------------------------------------------------------------
  // Intervals that divide the range of the counter

  ghost predicate IsMultiple(x: nat, interval: nat) {
    exists k: nat :: x == k * interval
  }

  /** The counter counts frames. */
  ghost predicate Counting(p: Path, j: Joint, cycles: nat)
    requires ValidPath(p)
  {
    && cycles * p.cfg.interval == CycleCounter.WORD && IsMultiple(j.counter, p.cfg.interval)
    && j.total == j.sent * p.cfg.interval + (if j.cpm.cycle == -1 then 1 else 0)
  }

  lemma NextMultiple(counter: nat, interval: nat, cycles: nat)
    requires counter < CycleCounter.WORD && interval > 0 && cycles * interval == CycleCounter.WORD
    requires IsMultiple(counter, interval)
    ensures CycleCounter.Advance(counter, interval) == interval && IsMultiple(CycleCounter.Next(counter, interval), interval)
  {
    var k: nat :| counter == k * interval;
    CycleCounter.AdvanceOfMultiple(counter, interval, cycles, k);
  }

  lemma OneMore(n: nat, interval: nat)
    ensures (n + 1) * interval == n * interval + interval
  {
  }

  lemma SendCounts(p: Path, j: Joint, status: byte, id: nat, lost: bool, cycles: nat)
    requires ValidPath(p) && Linked(p, j) && Counting(p, j, cycles)
    ensures Counting(p, Sent(p, j, status, id, lost), cycles)
    ensures CycleCounter.Advance(j.counter, p.cfg.interval) == p.cfg.interval
  {
    NextMultiple(j.counter, p.cfg.interval, cycles);
    OneMore(j.sent, p.cfg.interval);
    if lost || !Takes(p, j, status, id) {
      NotTakenLinked(p, j, status, id, lost);
    } else {
      TakenLinked(p, j, status, id);
    }
  }

  lemma StepCounts(p: Path, j: Joint, mv: Move, cycles: nat)
    requires ValidPath(p) && Linked(p, j) && Counting(p, j, cycles) && Possible(p, mv)
    ensures Counting(p, Step(p, j, mv), cycles)
  {
    match mv {
      case Stray(f, id) => StrayIgnored(p, j.cpm, f, id);
      case Send(status, id, lost) => SendCounts(p, j, status, id, lost, cycles);
      case _ =>
    }
  }

  lemma {:induction false} RunCounts(p: Path, j: Joint, mvs: seq<Move>, cycles: nat)
    requires ValidPath(p) && Linked(p, j) && Counting(p, j, cycles) && forall mv <- mvs :: Possible(p, mv)
    ensures Counting(p, Run(p, j, mvs), cycles)
    decreases |mvs|
  {
    if mvs != [] {
      assert mvs[0] in mvs && forall mv <- mvs[1..] :: mv in mvs;
      StepLinked(p, j, mvs[0]);
      StepCounts(p, j, mvs[0], cycles);
      RunCounts(p, Step(p, j, mvs[0]), mvs[1..], cycles);
    }
  }

  /**
   Then the next frame is the n-th since the last accepted one, and it is accepted, if it arrives valid at a running consumer,
   if and only if n intervals, modulo 65536, are between 1 and 61440; before the first acceptance, one more.
   */
  lemma AcceptedByCount(p: Path, dataHoldFactor: nat, mvs: seq<Move>, cycles: nat, status: byte, id: nat)
    requires ValidPath(p) && cycles * p.cfg.interval == CycleCounter.WORD && forall mv <- mvs :: Possible(p, mv)
    ensures Linked(p, Started(p, dataHoldFactor))
    ensures var j := Run(p, Started(p, dataHoldFactor), mvs);
      var n := j.sent + 1; var one := if j.cpm.cycle == -1 then 1 else 0;
      Takes(p, j, status, id) <==>
        && j.cpm.state != WStart && DataValid(status)
        && CycleCounter.InStep(n * p.cfg.interval + one)
  {
    StartedLinked(p, dataHoldFactor);
    var s := Started(p, dataHoldFactor);
    ZeroIsMultiple(p.cfg.interval);
    RunCounts(p, s, mvs, cycles);
    NextByCount(p, Run(p, s, mvs), cycles, status, id);
  }

  lemma ZeroIsMultiple(interval: nat)
    ensures IsMultiple(0, interval)
  {
    assert 0 == 0 * interval;
  }

  lemma NextByCount(p: Path, j: Joint, cycles: nat, status: byte, id: nat)
    requires ValidPath(p) && Linked(p, j) && Counting(p, j, cycles)
    ensures Takes(p, j, status, id) <==>
      && j.cpm.state != WStart && DataValid(status)
      && CycleCounter.InStep((j.sent + 1) * p.cfg.interval + if j.cpm.cycle == -1 then 1 else 0)
  {
    NextMultiple(j.counter, p.cfg.interval, cycles);
    OneMore(j.sent, p.cfg.interval);
    AcceptedExactly(p, j, status, id);
  }

  /** Frames that all arrive, with the given status bytes, and whether all are rejected. */
  predicate AllRefused(p: Path, j: Joint, stats: seq<byte>, id: nat)
    requires ValidPath(p) && Linked(p, j)
    decreases |stats|
  {
    if stats == [] then true
    else if Takes(p, j, stats[0], id) then false
    else
      NotTakenLinked(p, j, stats[0], id, false);
      AllRefused(p, Sent(p, j, stats[0], id, false), stats[1..], id)
  }

  /** Valid frames arrive at a running consumer, and all are refused; `total` is the advance of the first one. */
  ghost predicate Refusing(p: Path, j: Joint, stats: seq<byte>, id: nat, cycles: nat, total: nat)
    requires ValidPath(p)
  {
    && Linked(p, j) && Counting(p, j, cycles) && j.cpm.state != WStart && (forall x <- stats :: DataValid(x))
    && AllRefused(p, j, stats, id) && total == j.total + p.cfg.interval
  }

  lemma RefusingNext(p: Path, j: Joint, stats: seq<byte>, id: nat, cycles: nat, total: nat)
    requires ValidPath(p) && stats != [] && Refusing(p, j, stats, id, cycles, total)
    ensures !CycleCounter.InStep(total)
    ensures Refusing(p, Sent(p, j, stats[0], id, false), stats[1..], id, cycles, total + p.cfg.interval)
  {
    assert stats[0] in stats && forall x <- stats[1..] :: x in stats;
    SendCounts(p, j, stats[0], id, false, cycles);
    AcceptedExactly(p, j, stats[0], id);
    NotTakenLinked(p, j, stats[0], id, false);
  }

  lemma {:induction false} RefusedBound(p: Path, j: Joint, stats: seq<byte>, id: nat, cycles: nat, total: nat)
    requires ValidPath(p) && Refusing(p, j, stats, id, cycles, total) && p.cfg.interval <= 61440
    ensures CycleCounter.Bounded(total, p.cfg.interval, |stats|)
    decreases |stats|
  {
    if stats != [] {
      var r, rest, next := FirstRefused(p, j, stats, id, cycles, total);
      RefusedBound(p, r, rest, id, cycles, next);
    }
  }

  lemma FirstRefused(p: Path, j: Joint, stats: seq<byte>, id: nat, cycles: nat, total: nat)
    returns (r: Joint, rest: seq<byte>, next: nat)
    requires ValidPath(p) && Refusing(p, j, stats, id, cycles, total) && stats != [] && p.cfg.interval <= 61440
    ensures Refusing(p, r, rest, id, cycles, next) && |rest| < |stats|
    ensures CycleCounter.Bounded(next, p.cfg.interval, |rest|) ==> CycleCounter.Bounded(total, p.cfg.interval, |stats|)
  {
    RefusingNext(p, j, stats, id, cycles, total);
    r, rest, next := Sent(p, j, stats[0], id, false), stats[1..], total + p.cfg.interval;
    if CycleCounter.Bounded(next, p.cfg.interval, |rest|) {
      CycleCounter.OneMoreRejected(total, p.cfg.interval, |stats|);
    }
  }

  lemma RefusedRow(p: Path, j: Joint, stats: seq<byte>, id: nat, cycles: nat, total: nat)
    requires ValidPath(p) && Refusing(p, j, stats, id, cycles, total) && p.cfg.interval <= 61440
    ensures stats == [] || (|stats| - 1) * p.cfg.interval <= 4095
  {
    RefusedBound(p, j, stats, id, cycles, total);
    CycleCounter.BoundedRow(total, p.cfg.interval, |stats|);
  }

  /**
   However many frames were lost: once frames arrive again, with valid data, at a running consumer, no more than
   4095 / interval + 1 of them in a row are rejected.
   */
  lemma RecoversAfterLoss(p: Path, j: Joint, stats: seq<byte>, id: nat, cycles: nat)
    requires ValidPath(p) && Linked(p, j) && Counting(p, j, cycles) && p.cfg.interval <= 61440 && j.cpm.state != WStart
    requires (forall x <- stats :: DataValid(x)) && AllRefused(p, j, stats, id)
    ensures stats == [] || (|stats| - 1) * p.cfg.interval <= 4095
  {
    RefusedRow(p, j, stats, id, cycles, j.total + p.cfg.interval);
  }
}
