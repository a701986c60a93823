/**
 The provider of cyclic data: src/common/pf_ppm.c over src/common/pf_ppm_driver_sw.c. The application
 writes submodule data into a buffer; at each send time the frame is finished from it in place.
 */
module Provider {
  import opened Bytes
  import opened Options
  import CycleCounter

  datatype Key = Key(api: nat, slot: nat, subslot: nat)

  /** pf_iodata_object_t */
  datatype Desc = Desc(inUse: bool, key: Key, dataOffset: nat, dataLength: nat,
                       iopsOffset: nat, iopsLength: nat, iocsOffset: nat, iocsLength: nat)

  datatype Part = Data | Iops | Iocs

  function Offset(d: Desc, p: Part): nat {
    match p case Data => d.dataOffset case Iops => d.iopsOffset case Iocs => d.iocsOffset
  }

  function Length(d: Desc, p: Part): nat {
    match p case Data => d.dataLength case Iops => d.iopsLength case Iocs => d.iocsLength
  }

  predicate InBounds(descs: seq<Desc>, n: nat) {
    forall i, p: Part :: 0 <= i < |descs| ==> PartEnds(descs, n, i, p)
  }

  predicate PartEnds(descs: seq<Desc>, n: nat, i: nat, p: Part)
    requires i < |descs|
  {
    Offset(descs[i], p) + Length(descs[i], p) <= n
  }

  predicate Apart(d: Desc, p: Part, e: Desc, q: Part) {
    Offset(d, p) + Length(d, p) <= Offset(e, q) || Offset(e, q) + Length(e, q) <= Offset(d, p)
  }

  /** No two parts share a byte. */
  predicate AllApart(descs: seq<Desc>) {
    forall i, j, p: Part, q: Part :: 0 <= i < |descs| && 0 <= j < |descs| && (i != j || p != q) ==>
      Apart(descs[i], p, descs[j], q)
  }

  /** The bytes of one part in the data area of a frame. */
  function Slice(area: seq<byte>, d: Desc, p: Part): (r: seq<byte>)
    requires Offset(d, p) + Length(d, p) <= |area|
    ensures |r| == Length(d, p)
  {
    area[Offset(d, p)..Offset(d, p) + Length(d, p)]
  }

  /** The first descriptor in use for the key: the inner search of pf_ppm_get_ar_iocr_desc and pf_cpm_get_ar_iocr_desc. */
  function FirstDesc(descs: seq<Desc>, key: Key, at: nat): (r: Option<nat>)
    ensures r.Some? ==> at <= r.value < |descs| && descs[r.value].inUse && descs[r.value].key == key
    ensures r.Some? ==> forall i :: at <= i < r.value ==> !(descs[i].inUse && descs[i].key == key)
    ensures r.None? ==> forall i :: at <= i < |descs| ==> !(descs[i].inUse && descs[i].key == key)
    decreases |descs| - at
  {
    if at >= |descs| then None
    else if descs[at].inUse && descs[at].key == key then Some(at)
    else FirstDesc(descs, key, at + 1)
  }

  method FindDesc(descs: seq<Desc>, key: Key) returns (found: Option<nat>)
    ensures found == FirstDesc(descs, key, 0)
  {
    found := None;
    var ix := 0;
    while found.None? && ix < |descs|
      invariant 0 <= ix <= |descs|
      invariant FirstDesc(descs, key, 0) == if found.Some? then found else FirstDesc(descs, key, ix)
    {
      if descs[ix].inUse && descs[ix].key == key {
        found := Some(ix);
      }
      ix := ix + 1;
    }
  }

  /** A write of bytes into the data area at an offset. */
  function Patch(area: seq<byte>, offset: nat, bytes: seq<byte>): (r: seq<byte>)
    requires offset + |bytes| <= |area|
    ensures |r| == |area|
  {
    area[..offset] + bytes + area[offset + |bytes|..]
  }

  /** One value given to one part of one descriptor. */
  datatype Write = Write(ix: nat, part: Part, bytes: seq<byte>)

  predicate Fits(descs: seq<Desc>, w: Write) {
    w.ix < |descs| && |w.bytes| == Length(descs[w.ix], w.part)
  }

  function PatchAll(area: seq<byte>, descs: seq<Desc>, ws: seq<Write>): (r: seq<byte>)
    requires InBounds(descs, |area|) && forall w <- ws :: Fits(descs, w)
    ensures |r| == |area|
  {
    if ws == [] then area
    else
      var w := ws[|ws| - 1];
      assert w in ws && Fits(descs, w) && PartEnds(descs, |area|, w.ix, w.part) && forall x <- ws[..|ws| - 1] :: x in ws;
      Patch(PatchAll(area, descs, ws[..|ws| - 1]), Offset(descs[w.ix], w.part), w.bytes)
  }

  /** The bytes last written to a part, or what was there before. */
  function LastWritten(area: seq<byte>, descs: seq<Desc>, ws: seq<Write>, ix: nat, p: Part): seq<byte>
    requires InBounds(descs, |area|) && ix < |descs|
  {
    assert PartEnds(descs, |area|, ix, p);
    if ws == [] then Slice(area, descs[ix], p)
    else if ws[|ws| - 1].ix == ix && ws[|ws| - 1].part == p then ws[|ws| - 1].bytes
    else LastWritten(area, descs, ws[..|ws| - 1], ix, p)
  }

  lemma PatchSlices(area: seq<byte>, d: Desc, p: Part, bytes: seq<byte>, e: Desc, q: Part)
    requires Offset(d, p) + Length(d, p) <= |area| && Offset(e, q) + Length(e, q) <= |area|
    requires |bytes| == Length(d, p)
    ensures Slice(Patch(area, Offset(d, p), bytes), d, p) == bytes
    ensures Apart(d, p, e, q) ==> Slice(Patch(area, Offset(d, p), bytes), e, q) == Slice(area, e, q)
  {
    var r := Patch(area, Offset(d, p), bytes);
    assert forall k :: 0 <= k < |area| ==>
      r[k] == if Offset(d, p) <= k < Offset(d, p) + |bytes| then bytes[k - Offset(d, p)] else area[k];
  }

  /** Whatever is written in whichever order, every part holds the bytes written to it last. */
  lemma {:induction false} PartsHoldLastWritten(area: seq<byte>, descs: seq<Desc>, ws: seq<Write>, ix: nat, p: Part)
    requires InBounds(descs, |area|) && AllApart(descs) && ix < |descs|
    requires PartEnds(descs, |area|, ix, p) && forall w <- ws :: Fits(descs, w)
    ensures Slice(PatchAll(area, descs, ws), descs[ix], p) == LastWritten(area, descs, ws, ix, p)
  {
    if ws != [] {
      var w := ws[|ws| - 1];
      assert w in ws && Fits(descs, w) && PartEnds(descs, |area|, w.ix, w.part);
      assert forall x <- ws[..|ws| - 1] :: x in ws;
      var before := PatchAll(area, descs, ws[..|ws| - 1]);
      PartsHoldLastWritten(area, descs, ws[..|ws| - 1], ix, p);
      PatchSlices(before, descs[w.ix], w.part, w.bytes, descs[ix], p);
      if w.ix != ix || w.part != p {
        assert Apart(descs[w.ix], w.part, descs[ix], p);
      }
    }
  }

  /** What the AR and the IOCR parameters say about the frame. */
  datatype Config = Config(da: seq<byte>, sa: seq<byte>, vlanId: nat, priority: nat, frameId: nat,
                           cSduLength: nat, inLength: nat, interval: nat)

  const FRAME_BUFFER_SIZE: nat := 1500
  const VLAN: nat := 0x8100
  const PROFINET: nat := 0x8892
  const DATA_POS: nat := 20
  const MAX_SDU: nat := FRAME_BUFFER_SIZE - DATA_POS - 4

  predicate ValidConfig(c: Config) {
    && |c.da| == 6 && |c.sa| == 6 && c.frameId < WORD && c.interval > 0
    && c.inLength <= c.cSduLength <= MAX_SDU
  }

  /** Destination, source, VLAN tag, Ethertype and frame id. */
  function Header(c: Config): (r: seq<byte>)
    requires ValidConfig(c)
    ensures |r| == DATA_POS
  {
    c.da + c.sa + Put16(VLAN) + Put16((c.priority % 8) * 0x2000 + c.vlanId % 0x1000) + Put16(PROFINET) + Put16(c.frameId)
  }

  /** The whole frame: header, data, cycle counter, data status and transfer status. Bytes past in_length stay zero. */
  function FrameBytes(c: Config, area: seq<byte>, cycle: nat, status: byte, transfer: byte): (r: seq<byte>)
    requires ValidConfig(c) && |area| >= c.inLength && cycle < WORD
    ensures |r| == DATA_POS + c.cSduLength + 4
  {
    Header(c) + area[..c.inLength] + Zeros(c.cSduLength - c.inLength) + Put16(cycle) + [status, transfer]
  }

  /** A buffer that starts with a frame. */
  lemma FrameIs(b: seq<byte>, c: Config, area: seq<byte>, cycle: nat, status: byte, transfer: byte)
    requires ValidConfig(c) && |area| >= c.inLength && cycle < WORD && |b| >= DATA_POS + c.cSduLength + 4
    requires b[..DATA_POS] == Header(c)
    requires forall k :: 0 <= k < c.inLength ==> b[DATA_POS + k] == area[k]
    requires forall k :: DATA_POS + c.inLength <= k < DATA_POS + c.cSduLength ==> b[k] == 0
    requires var at := DATA_POS + c.cSduLength;
      b[at] == cycle / 256 && b[at + 1] == cycle % 256 && b[at + 2] == status && b[at + 3] == transfer
    ensures b[..DATA_POS + c.cSduLength + 4] == FrameBytes(c, area, cycle, status, transfer)
  {
    var n, m := DATA_POS + c.inLength, DATA_POS + c.cSduLength;
    assert b[DATA_POS..n] == area[..c.inLength];
    assert b[n..m] == Zeros(c.cSduLength - c.inLength);
    assert b[m..m + 4] == Put16(cycle) + [status, transfer];
    assert b[..m + 4] == b[..DATA_POS] + b[DATA_POS..n] + b[n..m] + b[m..m + 4];
  }

  class Ppm {
    const config: Config
    const descs: seq<Desc>
    const sendBuffer: array<byte>   // p_send_buffer
    const data: array<byte>         // buffer_data
    var cycle: nat
    var dataStatus: byte
    var transferStatus: byte

    ghost predicate Valid()
      reads this, sendBuffer, data
    {
      && ValidConfig(config) && AllApart(descs)
      && InBounds(descs, config.inLength) && InBounds(descs, FRAME_BUFFER_SIZE)
      && sendBuffer.Length == FRAME_BUFFER_SIZE == data.Length && sendBuffer != data
      && cycle < WORD
      && sendBuffer[..DATA_POS] == Header(config)
      && (forall k :: DATA_POS + config.inLength <= k < DATA_POS + config.cSduLength ==> sendBuffer[k] == 0)
    }

    /** The frame as it would be sent now. */
    function Frame(): seq<byte>
      requires ValidConfig(config) && sendBuffer.Length == FRAME_BUFFER_SIZE
      reads sendBuffer
    {
      sendBuffer[..DATA_POS + config.cSduLength + 4]
    }

    /** pf_ppm_init_cr_config and pf_ppm_init_buf */
    constructor (config: Config, descs: seq<Desc>)
      requires ValidConfig(config) && InBounds(descs, config.inLength) && AllApart(descs)
      ensures Valid() && fresh(sendBuffer) && fresh(data)
      ensures this.config == config && this.descs == descs && cycle == 0 && transferStatus == 0
      ensures dataStatus == 0x25 // primary, data valid, no problem
    {
      this.config := config;
      this.descs := descs;
      cycle, dataStatus, transferStatus := 0, 0x25, 0;
      var header := Header(config);
      sendBuffer := new byte[FRAME_BUFFER_SIZE](k requires k >= 0 => if k < DATA_POS then header[k] else 0);
      data := new byte[FRAME_BUFFER_SIZE](_ => 0);
      BoundsGrow(descs, config.inLength, FRAME_BUFFER_SIZE);
    }

    /** pf_ppm_finish_buffer with in_length bytes: the frame holds the next cycle counter and what has been written. */
    method FinishBuffer()
      requires Valid()
      modifies `cycle, sendBuffer
      ensures Valid() && cycle == CycleCounter.Next(old(cycle), config.interval)
      ensures Frame() == FrameBytes(config, data[..], cycle, dataStatus, transferStatus)
    {
      cycle := CycleCounter.Next(cycle, config.interval);
      forall k | 0 <= k < config.inLength {
        sendBuffer[DATA_POS + k] := data[k];
      }
      var at := DATA_POS + config.cSduLength;
      sendBuffer[at], sendBuffer[at + 1] := cycle / 256, cycle % 256;
      sendBuffer[at + 2] := dataStatus;
      sendBuffer[at + 3] := transferStatus;
      FrameIs(sendBuffer[..], config, data[..], cycle, dataStatus, transferStatus);
    }

    /** The memcpy of pf_ppm_drv_sw_write_frame_buffer. */
    method WriteFrameBuffer(offset: nat, bytes: seq<byte>)
      requires offset + |bytes| <= data.Length
      modifies data
      ensures data[..] == Patch(old(data[..]), offset, bytes)
    {
      forall k | 0 <= k < |bytes| {
        data[offset + k] := bytes[k];
      }
    }

    /** pf_ppm_set_data_and_iops: both parts are written, or nothing if the subslot or a length is wrong. */
    method SetDataAndIops(key: Key, bytes: Option<seq<byte>>, dataLen: nat, iops: seq<byte>) returns (ret: int)
      requires Valid() && (bytes.Some? ==> |bytes.value| == dataLen)
      modifies data
      ensures Valid()
      ensures data[..] == PatchAll(old(data[..]), descs, CallWrites(descs, SetData(key, bytes, dataLen, iops)))
      ensures ret == if CallWrites(descs, SetData(key, bytes, dataLen, iops)) == [] then -1 else 0
      ensures Sets(old(data[..]), data[..], descs, SetData(key, bytes, dataLen, iops))
      ensures ret == if IsAccepted(descs, SetData(key, bytes, dataLen, iops)) then 0 else -1
    {
      CallSets(data[..], descs, SetData(key, bytes, dataLen, iops));
      var at := FindDesc(descs, key);
      if at.None? {
        return -1;
      }
      var d := descs[at.value];
      if dataLen != d.dataLength || |iops| != d.iopsLength {
        return -1;
      }
      ghost var area := data[..];
      assert PartEnds(descs, config.inLength, at.value, Data) && PartEnds(descs, config.inLength, at.value, Iops);
      if bytes.Some? {
        WriteFrameBuffer(d.dataOffset, bytes.value);
        PatchOne(area, descs, Write(at.value, Data, bytes.value));
      }
      ghost var ws := DataWrites(at.value, bytes, iops);
      assert ws[..|ws| - 1] == if bytes.Some? then [Write(at.value, Data, bytes.value)] else [];
      WriteFrameBuffer(d.iopsOffset, iops);
      ret := 0;
    }

    /** pf_ppm_set_iocs: refused with success if the subslot has no consumer status. */
    method SetIocs(key: Key, iocs: seq<byte>) returns (ret: int)
      requires Valid()
      modifies data
      ensures Valid()
      ensures data[..] == PatchAll(old(data[..]), descs, CallWrites(descs, SetConsumerStatus(key, iocs)))
      ensures var at := FirstDesc(descs, key, 0);
        ret == if at.Some? && (|iocs| == descs[at.value].iocsLength || descs[at.value].iocsLength == 0) then 0 else -1
      ensures Sets(old(data[..]), data[..], descs, SetConsumerStatus(key, iocs))
    {
      CallSets(data[..], descs, SetConsumerStatus(key, iocs));
      var at := FindDesc(descs, key);
      if at.None? {
        return -1;
      }
      var d := descs[at.value];
      if |iocs| == d.iocsLength {
        assert PartEnds(descs, config.inLength, at.value, Iocs);
        PatchOne(data[..], descs, Write(at.value, Iocs, iocs));
        WriteFrameBuffer(d.iocsOffset, iocs);
        ret := 0;
      } else {
        ret := if d.iocsLength == 0 then 0 else -1;
      }
    }
  }

  /** A call by the application that sets values. */
  datatype Request =
    | SetData(key: Key, bytes: Option<seq<byte>>, dataLen: nat, iops: seq<byte>)
    | SetConsumerStatus(key: Key, iocs: seq<byte>)

  /** The data bytes, if any, are as many as the length says. */
  predicate IsWhole(c: Request) {
    c.SetData? && c.bytes.Some? ==> |c.bytes.value| == c.dataLen
  }

  type SetCall = c: Request | IsWhole(c) witness SetConsumerStatus(Key(0, 0, 0), [])

  /** There is a descriptor in use for the subslot, and the call has its lengths. */
  predicate IsAccepted(descs: seq<Desc>, c: SetCall) {
    var at := FirstDesc(descs, c.key, 0);
    at.Some? &&
    match c
    case SetData(_, _, dataLen, iops) => dataLen == descs[at.value].dataLength && |iops| == descs[at.value].iopsLength
    case SetConsumerStatus(_, iocs) => |iocs| == descs[at.value].iocsLength
  }

  /** The value that the call gives to a part of the ix-th descriptor, if it gives one. */
  function Gives(descs: seq<Desc>, ix: nat, p: Part, c: SetCall): Option<seq<byte>> {
    if FirstDesc(descs, c.key, 0) != Some(ix) || !IsAccepted(descs, c) then None
    else
      match (c, p)
      case (SetData(_, bytes, _, _), Data) => bytes
      case (SetData(_, _, _, iops), Iops) => Some(iops)
      case (SetConsumerStatus(_, iocs), Iocs) => Some(iocs)
      case _ => None
  }

  /** The k-th byte of the area belongs to the part. */
  predicate Covers(d: Desc, p: Part, k: nat) {
    Offset(d, p) <= k < Offset(d, p) + Length(d, p)
  }

  /** The k-th byte of the area belongs to a part that the call gives a value to. */
  ghost predicate IsGiven(descs: seq<Desc>, c: SetCall, k: nat) {
    exists ix, p: Part :: 0 <= ix < |descs| && Covers(descs[ix], p, k) && Gives(descs, ix, p, c).Some?
  }

  /** What a call does to the area: the parts that it gives values to hold these, and nothing else changes. */
  ghost predicate Sets(area: seq<byte>, area': seq<byte>, descs: seq<Desc>, c: SetCall)
    requires InBounds(descs, |area|)
  {
    && |area'| == |area|
    && (forall ix, p: Part :: 0 <= ix < |descs| && PartEnds(descs, |area|, ix, p) && Gives(descs, ix, p, c).Some? ==>
          Slice(area', descs[ix], p) == Gives(descs, ix, p, c).value)
    && (forall k :: 0 <= k < |area| && !IsGiven(descs, c, k) ==> area'[k] == area[k])
  }

  /** The value given last. */
  predicate IsLatest(descs: seq<Desc>, ix: nat, p: Part, cs: seq<SetCall>, i: nat) {
    i < |cs| && Gives(descs, ix, p, cs[i]).Some? && forall j :: i < j < |cs| ==> Gives(descs, ix, p, cs[j]).None?
  }

  predicate NeverGiven(descs: seq<Desc>, ix: nat, p: Part, cs: seq<SetCall>) {
    forall i :: 0 <= i < |cs| ==> Gives(descs, ix, p, cs[i]).None?
  }

  /** The bytes are what the calls gave to the part last, and zeros if they gave nothing. */
  ghost predicate IsLastGiven(bytes: seq<byte>, descs: seq<Desc>, ix: nat, p: Part, cs: seq<SetCall>)
    requires ix < |descs|
  {
    && (forall i: nat :: IsLatest(descs, ix, p, cs, i) ==> Some(bytes) == Gives(descs, ix, p, cs[i]))
    && (NeverGiven(descs, ix, p, cs) ==> bytes == Zeros(Length(descs[ix], p)))
  }

  /** What the call writes; nothing, if it is refused. */
  function CallWrites(descs: seq<Desc>, c: SetCall): (ws: seq<Write>)
    ensures forall w <- ws :: Fits(descs, w)
  {
    var at := FirstDesc(descs, c.key, 0);
    if at.None? then []
    else
      var d := descs[at.value];
      match c
      case SetData(_, bytes, dataLen, iops) =>
        if dataLen != d.dataLength || |iops| != d.iopsLength then [] else DataWrites(at.value, bytes, iops)
      case SetConsumerStatus(_, iocs) =>
        if |iocs| == d.iocsLength then [Write(at.value, Iocs, iocs)] else []
  }

  function AllWrites(descs: seq<Desc>, cs: seq<SetCall>): (ws: seq<Write>)
    ensures forall w <- ws :: Fits(descs, w)
  {
    if cs == [] then []
    else
      AllWrites(descs, cs[..|cs| - 1]) + CallWrites(descs, cs[|cs| - 1])
  }

  /** The data area after a sequence of calls. */
  function AfterCalls(area: seq<byte>, descs: seq<Desc>, cs: seq<SetCall>): (r: seq<byte>)
    requires InBounds(descs, |area|)
    ensures |r| == |area|
  {
    if cs == [] then area
    else
      PatchAll(AfterCalls(area, descs, cs[..|cs| - 1]), descs, CallWrites(descs, cs[|cs| - 1]))
  }

  /** Calls one after the other amount to one sequence of writes. */
  lemma {:induction false} CallsAreWrites(area: seq<byte>, descs: seq<Desc>, cs: seq<SetCall>)
    requires InBounds(descs, |area|)
    ensures AfterCalls(area, descs, cs) == PatchAll(area, descs, AllWrites(descs, cs))
    decreases |cs|
  {
    if cs != [] {
      CallsAreWrites(area, descs, cs[..|cs| - 1]);
      PatchAllJoin(area, descs, AllWrites(descs, cs[..|cs| - 1]), CallWrites(descs, cs[|cs| - 1]));
    }
  }

  function DataWrites(ix: nat, bytes: Option<seq<byte>>, iops: seq<byte>): seq<Write> {
    (if bytes.Some? then [Write(ix, Data, bytes.value)] else []) + [Write(ix, Iops, iops)]
  }

  lemma PatchedElsewhere(area: seq<byte>, descs: seq<Desc>, w: Write, k: nat)
    requires InBounds(descs, |area|) && Fits(descs, w) && PartEnds(descs, |area|, w.ix, w.part) && k < |area|
    requires !Covers(descs[w.ix], w.part, k)
    ensures Patch(area, Offset(descs[w.ix], w.part), w.bytes)[k] == area[k]
  {
  }

  /** The writes of a call touch no other bytes. */
  lemma {:induction false} WritesElsewhere(area: seq<byte>, descs: seq<Desc>, ws: seq<Write>, k: nat)
    requires InBounds(descs, |area|) && (forall w <- ws :: Fits(descs, w)) && k < |area|
    requires forall w <- ws :: Fits(descs, w) ==> !Covers(descs[w.ix], w.part, k)
    ensures PatchAll(area, descs, ws)[k] == area[k]
  {
    if ws != [] {
      var w := ws[|ws| - 1];
      assert w in ws && Fits(descs, w) && PartEnds(descs, |area|, w.ix, w.part) && forall x <- ws[..|ws| - 1] :: x in ws;
      WritesElsewhere(area, descs, ws[..|ws| - 1], k);
      PatchedElsewhere(PatchAll(area, descs, ws[..|ws| - 1]), descs, w, k);
    }
  }

  lemma WritesAreGiven(descs: seq<Desc>, c: SetCall)
    ensures forall w <- CallWrites(descs, c) :: Gives(descs, w.ix, w.part, c) == Some(w.bytes)
  {
  }

  /** The last of the writes of one call to a part is what the call gives to it. */
  lemma LastWriteOfCall(area: seq<byte>, descs: seq<Desc>, c: SetCall, ix: nat, p: Part)
    requires InBounds(descs, |area|) && ix < |descs| && PartEnds(descs, |area|, ix, p)
    ensures LastWritten(area, descs, CallWrites(descs, c), ix, p) ==
      match Gives(descs, ix, p, c) case Some(bytes) => bytes case None => Slice(area, descs[ix], p)
  {
    CallGives(descs, c, ix, p);
    LastOfTwo(area, descs, CallWrites(descs, c), ix, p);
  }

  /** The value that at most two writes give to a part. */
  function LastOf(ws: seq<Write>, ix: nat, p: Part): Option<seq<byte>> {
    if ws == [] then None
    else if ws[|ws| - 1].ix == ix && ws[|ws| - 1].part == p then Some(ws[|ws| - 1].bytes)
    else if ws[0].ix == ix && ws[0].part == p then Some(ws[0].bytes)
    else None
  }

  lemma CallGives(descs: seq<Desc>, c: SetCall, ix: nat, p: Part)
    ensures |CallWrites(descs, c)| <= 2 && Gives(descs, ix, p, c) == LastOf(CallWrites(descs, c), ix, p)
  {
  }

  lemma LastOfTwo(area: seq<byte>, descs: seq<Desc>, ws: seq<Write>, ix: nat, p: Part)
    requires InBounds(descs, |area|) && ix < |descs| && PartEnds(descs, |area|, ix, p) && |ws| <= 2
    ensures LastWritten(area, descs, ws, ix, p) ==
      match LastOf(ws, ix, p) case Some(bytes) => bytes case None => Slice(area, descs[ix], p)
  {
    if |ws| == 2 {
      var rest := ws[..1];
      assert rest[0] == ws[0] && rest[..0] == [];
    }
  }

  lemma CallSlice(area: seq<byte>, descs: seq<Desc>, c: SetCall, ix: nat, p: Part)
    requires InBounds(descs, |area|) && AllApart(descs) && ix < |descs| && PartEnds(descs, |area|, ix, p)
    ensures Slice(PatchAll(area, descs, CallWrites(descs, c)), descs[ix], p) ==
      match Gives(descs, ix, p, c) case Some(bytes) => bytes case None => Slice(area, descs[ix], p)
  {
    PartsHoldLastWritten(area, descs, CallWrites(descs, c), ix, p);
    LastWriteOfCall(area, descs, c, ix, p);
  }

  lemma CallSets(area: seq<byte>, descs: seq<Desc>, c: SetCall)
    requires InBounds(descs, |area|) && AllApart(descs)
    ensures Sets(area, PatchAll(area, descs, CallWrites(descs, c)), descs, c)
  {
    var ws := CallWrites(descs, c);
    forall ix, p: Part | 0 <= ix < |descs| && PartEnds(descs, |area|, ix, p)
      ensures Slice(PatchAll(area, descs, ws), descs[ix], p) ==
        match Gives(descs, ix, p, c) case Some(bytes) => bytes case None => Slice(area, descs[ix], p)
    {
      CallSlice(area, descs, c, ix, p);
    }
    forall k | 0 <= k < |area| && !IsGiven(descs, c, k)
      ensures PatchAll(area, descs, ws)[k] == area[k]
    {
      WritesAreGiven(descs, c);
      WritesElsewhere(area, descs, ws, k);
    }
  }

  lemma GivenAfter(descs: seq<Desc>, ix: nat, p: Part, cs: seq<SetCall>, c: SetCall, bytes: seq<byte>)
    requires ix < |descs| && IsLastGiven(bytes, descs, ix, p, cs)
    ensures IsLastGiven(match Gives(descs, ix, p, c) case Some(given) => given case None => bytes, descs, ix, p, cs + [c])
  {
    match Gives(descs, ix, p, c) {
      case Some(given) => GivenNow(descs, ix, p, cs + [c], given);
      case None => GivenBefore(descs, ix, p, cs, c, bytes);
    }
  }

  lemma GivenNow(descs: seq<Desc>, ix: nat, p: Part, cs: seq<SetCall>, bytes: seq<byte>)
    requires cs != [] && ix < |descs| && Gives(descs, ix, p, cs[|cs| - 1]) == Some(bytes)
    ensures IsLastGiven(bytes, descs, ix, p, cs)
  {
  }

  lemma GivenBefore(descs: seq<Desc>, ix: nat, p: Part, cs: seq<SetCall>, c: SetCall, bytes: seq<byte>)
    requires ix < |descs| && Gives(descs, ix, p, c).None? && IsLastGiven(bytes, descs, ix, p, cs)
    ensures IsLastGiven(bytes, descs, ix, p, cs + [c])
  {
    forall i: nat | IsLatest(descs, ix, p, cs + [c], i)
      ensures Some(bytes) == Gives(descs, ix, p, (cs + [c])[i])
    {
      LatestBefore(descs, ix, p, cs, c, i);
    }
    if NeverGiven(descs, ix, p, cs + [c]) {
      assert forall i :: 0 <= i < |cs| ==> cs[i] == (cs + [c])[i];
    }
  }

  lemma LatestBefore(descs: seq<Desc>, ix: nat, p: Part, cs: seq<SetCall>, c: SetCall, i: nat)
    requires Gives(descs, ix, p, c).None? && IsLatest(descs, ix, p, cs + [c], i)
    ensures IsLatest(descs, ix, p, cs, i) && (cs + [c])[i] == cs[i]
  {
    assert forall j :: 0 <= j < |cs| ==> cs[j] == (cs + [c])[j];
  }

  lemma NothingGiven(n: nat, descs: seq<Desc>, ix: nat, p: Part)
    requires InBounds(descs, n) && ix < |descs| && PartEnds(descs, n, ix, p)
    ensures IsLastGiven(Slice(Zeros(n), descs[ix], p), descs, ix, p, [])
  {
  }

  lemma OneMoreCall(area: seq<byte>, descs: seq<Desc>, cs: seq<SetCall>, c: SetCall)
    requires InBounds(descs, |area|)
    ensures AfterCalls(area, descs, cs + [c]) == PatchAll(AfterCalls(area, descs, cs), descs, CallWrites(descs, c))
  {
    assert (cs + [c])[..|cs|] == cs;
  }

  lemma OneMoreSet(n: nat, descs: seq<Desc>, cs: seq<SetCall>, c: SetCall, ix: nat, p: Part)
    requires InBounds(descs, n) && AllApart(descs)
    requires ix < |descs| && PartEnds(descs, n, ix, p)
    requires IsLastGiven(Slice(AfterCalls(Zeros(n), descs, cs), descs[ix], p), descs, ix, p, cs)
    ensures IsLastGiven(Slice(AfterCalls(Zeros(n), descs, cs + [c]), descs[ix], p), descs, ix, p, cs + [c])
  {
    var area := AfterCalls(Zeros(n), descs, cs);
    OneMoreCall(Zeros(n), descs, cs, c);
    CallSlice(area, descs, c, ix, p);
    GivenAfter(descs, ix, p, cs, c, Slice(area, descs[ix], p));
  }

  /**
   Whatever is called in whichever order, every part of every submodule holds the value that a call gave to it last. A call
   gives values only if it is accepted; one without data bytes leaves the data as they are.
   */
  lemma {:induction false} LastSetStays(n: nat, descs: seq<Desc>, cs: seq<SetCall>, ix: nat, p: Part)
    requires InBounds(descs, n) && AllApart(descs) && ix < |descs| && PartEnds(descs, n, ix, p)
    ensures IsLastGiven(Slice(AfterCalls(Zeros(n), descs, cs), descs[ix], p), descs, ix, p, cs)
    decreases |cs|
  {
    if cs == [] {
      NothingGiven(n, descs, ix, p);
    } else {
      var before, c := cs[..|cs| - 1], cs[|cs| - 1];
      LastSetStays(n, descs, before, ix, p);
      OneMoreSet(n, descs, before, c, ix, p);
      assert before + [c] == cs;
    }
  }

  lemma {:induction false} PatchAllJoin(area: seq<byte>, descs: seq<Desc>, ws: seq<Write>, xs: seq<Write>)
    requires InBounds(descs, |area|) && (forall w <- ws :: Fits(descs, w)) && (forall w <- xs :: Fits(descs, w))
    ensures PatchAll(PatchAll(area, descs, ws), descs, xs) == PatchAll(area, descs, ws + xs)
  {
    if xs == [] {
      assert ws + xs == ws;
    } else {
      var n := |xs| - 1;
      var ys, w := xs[..n], xs[n];
      assert xs == ys + [w] && w in xs && forall x <- ys :: x in xs;
      PatchAllJoin(area, descs, ws, ys);
      OneMoreWrite(area, descs, ws, ys, w);
    }
  }

  lemma OneMoreWrite(area: seq<byte>, descs: seq<Desc>, ws: seq<Write>, ys: seq<Write>, w: Write)
    requires InBounds(descs, |area|) && (forall x <- ws :: Fits(descs, x)) && (forall x <- ys :: Fits(descs, x))
    requires Fits(descs, w) && PatchAll(PatchAll(area, descs, ws), descs, ys) == PatchAll(area, descs, ws + ys)
    ensures PatchAll(PatchAll(area, descs, ws), descs, ys + [w]) == PatchAll(area, descs, ws + (ys + [w]))
  {
    PatchLast(PatchAll(area, descs, ws), descs, ys, w);
    PatchLast(area, descs, ws + ys, w);
    assert ws + (ys + [w]) == (ws + ys) + [w];
  }

  lemma PatchLast(area: seq<byte>, descs: seq<Desc>, ws: seq<Write>, w: Write)
    requires InBounds(descs, |area|) && (forall x <- ws :: Fits(descs, x)) && Fits(descs, w)
    ensures PartEnds(descs, |area|, w.ix, w.part)
    ensures PatchAll(area, descs, ws + [w]) == Patch(PatchAll(area, descs, ws), Offset(descs[w.ix], w.part), w.bytes)
  {
    assert (ws + [w])[..|ws|] == ws;
  }

  lemma BoundsGrow(descs: seq<Desc>, n: nat, m: nat)
    requires InBounds(descs, n) && n <= m
    ensures InBounds(descs, m)
  {
    forall i, p: Part | 0 <= i < |descs|
      ensures PartEnds(descs, m, i, p)
    {
      assert PartEnds(descs, n, i, p);
    }
  }

  lemma PatchOne(area: seq<byte>, descs: seq<Desc>, w: Write)
    requires InBounds(descs, |area|) && Fits(descs, w) && PartEnds(descs, |area|, w.ix, w.part)
    ensures PatchAll(area, descs, [w]) == Patch(area, Offset(descs[w.ix], w.part), w.bytes)
  {
    assert [w][..0] == [];
  }
}
