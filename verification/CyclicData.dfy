/**
 Provider and consumer joined: what the application last set in one device is what the other reads.
 Both ends share the descriptors of the IOCR; the frame passes the VLAN skip and the frame id dispatch of Ethernet.
 */
module CyclicData {
  import opened Bytes
  import opened Options
  import opened Provider
  import opened Consumer
  import CycleCounter
  import Ethernet

  /** Reading back the fixed parts of a finished frame. */
  lemma FrameFields(c: Config, area: seq<byte>, cycle: nat, status: byte, transfer: byte)
    requires ValidConfig(c) && |area| >= c.inLength && cycle < WORD
    ensures var f := FrameBytes(c, area, cycle, status, transfer);
      && f[..6] == c.da && f[6..12] == c.sa
      && Get16(f, 12) == VLAN && Get16(f, 16) == PROFINET && Get16(f, 18) == c.frameId
      && f[14] / 0x20 == c.priority % 8 && (f[14] / 0x10) % 2 == 0 && Get16(f, 14) % 0x1000 == c.vlanId % 0x1000
      && f[DATA_POS..DATA_POS + c.inLength] == area[..c.inLength]
      && Get16(f, |f| - 4) == cycle && f[|f| - 2] == status && f[|f| - 1] == transfer
  {
    var f := FrameBytes(c, area, cycle, status, transfer);
    var tail := Put16(cycle) + [status, transfer];
    var body := area[..c.inLength] + Zeros(c.cSduLength - c.inLength);
    assert f == Header(c) + body + tail;
    assert f[|f| - 4..] == tail;
    assert f[|f| - 4] == tail[0] && f[|f| - 3] == tail[1] && f[|f| - 2] == tail[2] && f[|f| - 1] == tail[3];
    HeaderFields(c);
    assert forall k :: 0 <= k < DATA_POS ==> f[k] == Header(c)[k];
    assert f[..12] == Header(c)[..12];
  }

  lemma HeaderFields(c: Config)
    requires ValidConfig(c)
    ensures Header(c)[..6] == c.da && Header(c)[6..12] == c.sa
    ensures Get16(Header(c), 12) == VLAN && Get16(Header(c), 16) == PROFINET && Get16(Header(c), 18) == c.frameId
    ensures Header(c)[14] / 0x20 == c.priority % 8 && (Header(c)[14] / 0x10) % 2 == 0
    ensures Get16(Header(c), 14) % 0x1000 == c.vlanId % 0x1000
  {
    RoundTrip16(c.frameId);
    TagFields(c.priority % 8, c.vlanId % 0x1000);
    var tag := Put16((c.priority % 8) * 0x2000 + c.vlanId % 0x1000);
    HeaderParts(c, tag);
  }

  lemma HeaderParts(c: Config, tag: seq<byte>)
    requires ValidConfig(c) && tag == Put16((c.priority % 8) * 0x2000 + c.vlanId % 0x1000)
    ensures Header(c)[..6] == c.da && Header(c)[6..12] == c.sa
    ensures Header(c)[12] == 0x81 && Header(c)[13] == 0 && Header(c)[14] == tag[0] && Header(c)[15] == tag[1]
    ensures Header(c)[16] == 0x88 && Header(c)[17] == 0x92
    ensures Header(c)[18] == Put16(c.frameId)[0] && Header(c)[19] == Put16(c.frameId)[1]
  {
  }

  /** Priority in the three bits on the left, and the VLAN id in the twelve on the right. */
  lemma TagFields(priority: nat, vlanId: nat)
    requires priority < 8 && vlanId < 0x1000
    ensures var tag := Put16(priority * 0x2000 + vlanId);
      tag[0] / 0x20 == priority && (tag[0] / 0x10) % 2 == 0 && Get16(tag, 0) % 0x1000 == vlanId
  {
    var hi, lo := vlanId / 256, vlanId % 256;
    RoundTrip16(priority * 0x2000 + vlanId);
    CycleCounter.QuotientUnique(priority * 0x2000 + vlanId, 256, priority * 0x20 + hi, lo);
    CycleCounter.QuotientUnique(priority * 0x20 + hi, 0x20, priority, hi);
    CycleCounter.QuotientUnique(priority * 0x20 + hi, 0x10, priority * 2, hi);
    CycleCounter.QuotientUnique(priority * 0x2000 + vlanId, 0x1000, priority * 2, vlanId);
  }

  /** The receiver finds the single VLAN tag, and behind it the frame id, and so the handler for it. */
  lemma FoundBehindTag(m: seq<Ethernet.Entry>, c: Config, area: seq<byte>, cycle: nat, status: byte, transfer: byte)
    requires ValidConfig(c) && |area| >= c.inLength && cycle < WORD
    ensures Ethernet.Receive(m, FrameBytes(c, area, cycle, status, transfer)) ==
      match Ethernet.Lookup(m, c.frameId)
      case None => Ethernet.Elsewhere
      case Some(handler) => Ethernet.Handled(handler, 18)
  {
    FrameFields(c, area, cycle, status, transfer);
    var f := FrameBytes(c, area, cycle, status, transfer);
    assert Get16(f, 12 + 4 * 0) == Ethernet.ETHTYPE_VLAN;
    Ethernet.TagsAreSkipped(f, 12, 1);
  }

  /** A payload that is handled without reading behind its end is long enough for what the consumer reads. */
  lemma HandledIsDelivered(m: seq<Ethernet.Entry>, f: seq<byte>, id: nat)
    requires Ethernet.Receive(m, f).Handled? && |f| < WORD
    ensures Delivered(Buf(id, f, Ethernet.Receive(m, f).framePos))
  {
  }

  /** The consumer that belongs to the provider: same C-SDU length, and the provider's address as expected source. */
  predicate Matches(c: Cpm, cfg: Config) {
    c.state != WStart && c.sa == cfg.sa && c.bufferLength == 16 + cfg.cSduLength + 4
  }

  /** Such a frame is accepted exactly if its counter is newer and its data valid bit is set. */
  lemma FinishedFrameAccepted(c: Cpm, cfg: Config, area: seq<byte>, cycle: nat, status: byte, id: nat)
    requires Consistent(c) && ValidConfig(cfg) && Matches(c, cfg) && |area| >= cfg.inLength && cycle < WORD
    ensures var b := Buf(id, FrameBytes(cfg, area, cycle, status, 0), 18);
      && Delivered(b)
      && (Accepts(c, b) <==> CycleCounter.Newer(c.cycle, cycle) && DataValid(status))
  {
    FrameFields(cfg, area, cycle, status, 0);
  }

  /** Once it is accepted and got, the application's area starts with the provider's area. */
  lemma AreaArrives(c: Cpm, cfg: Config, area: seq<byte>, cycle: nat, status: byte, id: nat)
    requires Consistent(c) && ValidConfig(cfg) && Matches(c, cfg) && |area| >= cfg.inLength && cycle < WORD
    requires CycleCounter.Newer(c.cycle, cycle) && DataValid(status)
    ensures var c1 := DataInd(c, Buf(id, FrameBytes(cfg, area, cycle, status, 0), 18)).0; var c2 := GetBuf(c1).0;
      && Consistent(c1) && GetBuf(c1).1 && Consistent(c2) && !c2.newBuf && c2.app.Some? && c2.cycle == cycle
      && Area(c2)[..cfg.inLength] == area[..cfg.inLength]
  {
    FinishedFrameAccepted(c, cfg, area, cycle, status, id);
    FrameFields(cfg, area, cycle, status, 0);
    var b := Buf(id, FrameBytes(cfg, area, cycle, status, 0), 18);
    StepKeepsConsistent(c, Frame(b));
    StepKeepsConsistent(DataInd(c, b).0, Read);
    assert Area(GetBuf(DataInd(c, b).0).0) == b.bytes[DATA_POS..];
  }

  /** Equal areas have equal parts. */
  lemma SliceOfPrefix(a: seq<byte>, b: seq<byte>, n: nat, d: Desc, p: Part)
    requires n <= |a| && n <= |b| && a[..n] == b[..n] && Offset(d, p) + Length(d, p) <= n
    ensures Slice(a, d, p) == Slice(b, d, p)
  {
    assert Slice(a, d, p) == Slice(a[..n], d, p) == Slice(b[..n], d, p) == Slice(b, d, p);
  }

  /** The consumer after pf_eth_recv has been given a payload; `handler` is the one that stands for this consumer. */
  function Arrives(m: seq<Ethernet.Entry>, handler: nat, c: Cpm, f: seq<byte>, id: nat): Cpm
    requires Consistent(c) && |f| < WORD
  {
    match Ethernet.Receive(m, f)
    case Handled(h, framePos) => if h == handler then DataInd(c, Buf(id, f, framePos)).0 else c
    case _ => c
  }

  /**
   The round trip. `ws` is everything that the provider's application has written since its area was
   cleared, in any order and as often as it likes. If the consumer is registered for the frame id, and its counter is
   the provider's previous one, the next frame reaches it and is accepted, and for every submodule each part read is
   the one last written.
   */
  lemma LastWrittenIsRead(m: seq<Ethernet.Entry>, handler: nat, c: Cpm, cfg: Config, descs: seq<Desc>, ws: seq<Write>,
                          prev: nat, status: byte, id: nat, ix: nat, p: Part)
    requires Consistent(c) && ValidConfig(cfg) && Matches(c, cfg)
    requires Ethernet.Lookup(m, cfg.frameId) == Some(handler)
    requires InBounds(descs, cfg.inLength) && AllApart(descs) && ix < |descs| && forall w <- ws :: Fits(descs, w)
    requires c.cycle == prev < WORD && cfg.interval <= 61440 && DataValid(status)
    ensures InBounds(descs, FRAME_BUFFER_SIZE) && PartEnds(descs, cfg.inLength, ix, p)
    ensures var area := PatchAll(Zeros(FRAME_BUFFER_SIZE), descs, ws);
      var f := FrameBytes(cfg, area, CycleCounter.Next(prev, cfg.interval), status, 0);
      var c1 := Arrives(m, handler, c, f, id); var c2 := GetBuf(c1).0;
      && c1.cycle == CycleCounter.Next(prev, cfg.interval) && c1.state == Run && c1.dht == 0
      && Consistent(c2) && GetBuf(c1).1 && !c2.newBuf && c2.app.Some?
      && Slice(Area(c2), descs[ix], p) == LastWritten(Zeros(FRAME_BUFFER_SIZE), descs, ws, ix, p)
  {
    BoundsGrow(descs, cfg.inLength, FRAME_BUFFER_SIZE);
    assert PartEnds(descs, cfg.inLength, ix, p) && PartEnds(descs, FRAME_BUFFER_SIZE, ix, p);
    var area := PatchAll(Zeros(FRAME_BUFFER_SIZE), descs, ws);
    var cycle := CycleCounter.Next(prev, cfg.interval);
    CycleCounter.ProviderStaysNewer(cfg.interval);
    assert CycleCounter.Newer(prev, cycle);
    FoundBehindTag(m, cfg, area, cycle, status, 0);
    FinishedFrameAccepted(c, cfg, area, cycle, status, id);
    AreaArrives(c, cfg, area, cycle, status, id);
    PartsHoldLastWritten(Zeros(FRAME_BUFFER_SIZE), descs, ws, ix, p);
    var c2 := GetBuf(DataInd(c, Buf(id, FrameBytes(cfg, area, cycle, status, 0), 18)).0).0;
    SliceOfPrefix(Area(c2), area, cfg.inLength, descs[ix], p);
  }

  /** The same for any calls by the provider's application: each part read is the value that an accepted call gave it last. */
  lemma LastSetIsRead(m: seq<Ethernet.Entry>, handler: nat, c: Cpm, cfg: Config, descs: seq<Desc>, calls: seq<SetCall>,
                      prev: nat, status: byte, id: nat, ix: nat, p: Part)
    requires Consistent(c) && ValidConfig(cfg) && Matches(c, cfg)
    requires Ethernet.Lookup(m, cfg.frameId) == Some(handler)
    requires InBounds(descs, cfg.inLength) && AllApart(descs) && ix < |descs|
    requires c.cycle == prev < WORD && cfg.interval <= 61440 && DataValid(status)
    ensures InBounds(descs, FRAME_BUFFER_SIZE) && PartEnds(descs, cfg.inLength, ix, p)
    ensures var area := AfterCalls(Zeros(FRAME_BUFFER_SIZE), descs, calls);
      var f := FrameBytes(cfg, area, CycleCounter.Next(prev, cfg.interval), status, 0);
      var c2 := GetBuf(Arrives(m, handler, c, f, id)).0;
      && Consistent(c2) && !c2.newBuf && c2.app.Some?
      && IsLastGiven(Slice(Area(c2), descs[ix], p), descs, ix, p, calls)
  {
    BoundsGrow(descs, cfg.inLength, FRAME_BUFFER_SIZE);
    CallsAreWrites(Zeros(FRAME_BUFFER_SIZE), descs, calls);
    LastWrittenIsRead(m, handler, c, cfg, descs, AllWrites(descs, calls), prev, status, id, ix, p);
    PartsHoldLastWritten(Zeros(FRAME_BUFFER_SIZE), descs, AllWrites(descs, calls), ix, p);
    LastSetStays(FRAME_BUFFER_SIZE, descs, calls, ix, p);
  }

  /** A part that reaches past in_length does not arrive whole: the frame carries zeros there whatever was written. */
  lemma PastInLengthIsZero(cfg: Config, area: seq<byte>, cycle: nat, status: byte, k: nat)
    requires ValidConfig(cfg) && |area| == FRAME_BUFFER_SIZE && cycle < WORD && k < cfg.cSduLength
    ensures FrameBytes(cfg, area, cycle, status, 0)[DATA_POS + k] == if k < cfg.inLength then area[k] else 0
  {
    FrameFields(cfg, area, cycle, status, 0);
    var f := FrameBytes(cfg, area, cycle, status, 0);
    if k < cfg.inLength {
      assert f[DATA_POS..DATA_POS + cfg.inLength][k] == area[..cfg.inLength][k];
    }
  }
}
