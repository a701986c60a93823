/**
 The consumer of cyclic data: src/common/pf_cpm.c over src/common/pf_cpm_driver_sw.c. Received frames
 are checked, swapped in as the newest buffer, and watched by the data hold timer.
 */
module Consumer {
  import opened Bytes
  import opened Options
  import opened Provider
  import CycleCounter

  datatype CpmState = WStart | FRun | Run

  /** A received frame in its buffer, and where its frame id is. */
  datatype Buf = Buf(id: nat, bytes: seq<byte>, framePos: nat)

  /** The fields of pf_cpm_t that decide behaviour. */
  datatype Cpm = Cpm(
    state: CpmState,
    sa: seq<byte>,            // the controller's MAC address
    dataHoldFactor: nat,
    bufferLength: nat,        // frame length without VLAN tags
    cycle: int,               // counter of the last accepted frame, -1 for never
    dht: nat,
    ciRunning: bool,
    dataStatus: byte,
    app: Option<Buf>,         // p_buffer_app
    cpm: Option<Buf>,         // p_buffer_cpm
    newBuf: bool,
    bufferPos: nat)

  /** pf_cpm_activate_req with the software driver, when its timer could be started. */
  function Activated(sa: seq<byte>, dataHoldFactor: nat, cSduLength: nat): Cpm {
    Cpm(FRun, sa, dataHoldFactor, 16 + cSduLength + 4, -1, 0, true, 0, None, None, false, 16)
  }

  /**
   A frame that is long enough for what pf_cpm_c_data_ind reads before it compares any length. pf_eth_recv does not
   check this; it holds of every payload that is handled without a read behind its end.
   */
  predicate Delivered(b: Buf) {
    14 <= b.framePos && b.framePos + 2 <= |b.bytes| < WORD
  }

  function Counter(b: Buf): (r: nat)
    requires Delivered(b)
    ensures r < WORD
  {
    Get16(b.bytes, |b.bytes| - 4)
  }

  function Status(b: Buf): byte
    requires Delivered(b)
  {
    b.bytes[|b.bytes| - 2]
  }

  predicate DataValid(status: byte) { (status / 4) % 2 == 1 }

  /** The checks of pf_cpm_c_data_ind: transfer status, source, length, a newer counter, and valid data. */
  predicate Accepts(c: Cpm, b: Buf)
    requires Delivered(b) && -1 <= c.cycle < WORD
  {
    && c.state != WStart
    && b.bytes[|b.bytes| - 1] == 0
    && b.bytes[6..12] == c.sa
    && |b.bytes| - b.framePos + 14 == c.bufferLength
    && CycleCounter.Newer(c.cycle, Counter(b))
    && DataValid(Status(b))
  }

  /** The consumer after a frame, and the buffer that pf_cpm_c_data_ind frees. */
  function DataInd(c: Cpm, b: Buf): (Cpm, Option<Buf>)
    requires Delivered(b) && -1 <= c.cycle < WORD
  {
    if Accepts(c, b) then
      (c.(state := Run, cycle := Counter(b), dht := 0, dataStatus := Status(b),
          cpm := Some(b), newBuf := true, bufferPos := b.framePos + 2), c.cpm)
    else (c, Some(b))
  }

  /**
   On the octets of a frame, whoever sent it: it is the new buffer if the consumer runs and the frame comes from the
   expected source, has the configured length when its VLAN tags are left out, transfer status 0, the data valid bit, and a
   counter that is 1 to 61440 ahead.
   If any of these fails, the consumer stays as it was and the frame comes back to be freed.
   */
  lemma TakenByOctets(c: Cpm, b: Buf)
    requires Consistent(c) && Delivered(b)
    ensures var n := |b.bytes|; var counter := b.bytes[n - 4] as int * 256 + b.bytes[n - 3] as int;
      && (c.state == WStart || b.bytes[6..12] != c.sa || b.bytes[n - 1] != 0 ==> DataInd(c, b) == (c, Some(b)))
      && (n - b.framePos != c.bufferLength - 14 || (b.bytes[n - 2] / 4) % 2 == 0 ==> DataInd(c, b) == (c, Some(b)))
      && ((c.cycle - counter) % 0x1_0000 <= 4095 ==> DataInd(c, b) == (c, Some(b)))
      && (c.state != WStart && b.bytes[6..12] == c.sa && b.bytes[n - 1] == 0
          && n - b.framePos == c.bufferLength - 14 && (b.bytes[n - 2] / 4) % 2 == 1
          && (c.cycle - counter) % 0x1_0000 > 4095 ==>
            && DataInd(c, b).0 == c.(state := Run, dht := 0, cycle := counter, dataStatus := b.bytes[n - 2],
                                     cpm := Some(b), newBuf := true, bufferPos := b.framePos + 2)
            && DataInd(c, b).1 == c.cpm)
  {
    NewerByDistance(c.cycle, Counter(b));
  }

  lemma NewerByDistance(prev: int, now: nat)
    requires -1 <= prev < WORD && now < WORD
    ensures CycleCounter.Newer(prev, now) <==> (prev - now) % 0x1_0000 > 4095
  {
  }

  /** pf_cpm_control_interval_expired; true if the consumer stops. */
  function Expire(c: Cpm): (Cpm, bool) {
    if c.ciRunning && c.state == Run then
      if c.dht >= c.dataHoldFactor then (c.(dht := 0, ciRunning := false, state := WStart), true)
      else (c.(dht := c.dht + 1), false)
    else (c, false)
  }

  /** pf_cpm_get_buf: the newest buffer becomes the application's. */
  function GetBuf(c: Cpm): (Cpm, bool) {
    if c.newBuf then (c.(app := c.cpm, cpm := c.app, newBuf := false), true) else (c, false)
  }

  predicate Consistent(c: Cpm) {
    && -1 <= c.cycle < WORD && |c.sa| == 6 && c.bufferLength >= 20
    && (c.newBuf ==> c.cpm.Some? && Readable(c, c.cpm.value))
    && (!c.newBuf && c.app.Some? ==> Readable(c, c.app.value))
    && (c.state == Run ==> c.dht <= c.dataHoldFactor)
  }

  /** The data area of the buffer starts at bufferPos and has the configured length. */
  predicate Readable(c: Cpm, b: Buf) {
    Delivered(b) && c.bufferPos == b.framePos + 2 && |b.bytes| - c.bufferPos == c.bufferLength - 16
  }

  class Consumer {
    var cpm: Cpm

    constructor (sa: seq<byte>, dataHoldFactor: nat, cSduLength: nat)
      requires |sa| == 6
      ensures cpm == Activated(sa, dataHoldFactor, cSduLength) && Consistent(cpm)
    {
      cpm := Activated(sa, dataHoldFactor, cSduLength);
    }

    /** pf_cpm_put_buf: the buffer that was there comes back. */
    method PutBuf(b: Buf) returns (previous: Option<Buf>)
      modifies this
      ensures cpm == old(cpm).(cpm := Some(b), newBuf := true) && previous == old(cpm).cpm
    {
      previous := cpm.cpm;
      cpm := cpm.(cpm := Some(b));
      cpm := cpm.(newBuf := true);
    }

    /** pf_cpm_c_data_ind */
    method DataIndication(b: Buf) returns (freed: Option<Buf>)
      requires Consistent(cpm) && Delivered(b)
      modifies this
      ensures Consistent(cpm) && (cpm, freed) == DataInd(old(cpm), b)
    {
      if cpm.state == WStart {
        return Some(b);
      }
      var pos := |b.bytes| - 4;
      var cycle := Get16(b.bytes, pos);
      var status := b.bytes[pos + 2];
      var transfer := b.bytes[pos + 3];
      var dataValid := (status / 4) % 2 != 0;
      var backup := status % 2 == 0;
      var primary := status % 2 != 0;
      var len := |b.bytes| - b.framePos + 14;
      var frameStructure := transfer == 0 && b.bytes[6..12] == cpm.sa && len == cpm.bufferLength;
      var cSduStructure := CycleCounter.Newer(cpm.cycle, cycle);
      var dhtReload := frameStructure && cSduStructure && (dataValid || backup);
      var updateData := frameStructure && cSduStructure && dataValid && (primary || backup);
      freed := Some(b);
      if dataValid && dhtReload {
        if updateData {
          freed := PutBuf(b);
          cpm := cpm.(bufferPos := b.framePos + 2);
        }
        cpm := cpm.(dht := 0, cycle := cycle, dataStatus := status);
        cpm := cpm.(state := Run);
      }
    }

    /** pf_cpm_control_interval_expired; `restarted` tells whether the timer can be started again. If not, the AR is aborted. */
    method ControlIntervalExpired(restarted: bool) returns (stopped: bool, aborted: bool)
      requires Consistent(cpm)
      modifies this
      ensures Consistent(cpm) && (cpm, stopped) == Expire(old(cpm))
      ensures aborted <==> old(cpm).ciRunning && !stopped && !restarted
    {
      stopped, aborted := false, false;
      if cpm.ciRunning && cpm.state == Run {
        if cpm.dht >= cpm.dataHoldFactor {
          cpm := cpm.(dht := 0, ciRunning := false);
          stopped := true;
          cpm := cpm.(state := WStart);
        } else {
          cpm := cpm.(dht := cpm.dht + 1);
        }
      }
      if cpm.ciRunning {
        aborted := !restarted;
      }
    }

    /** pf_cpm_get_data_and_iops for a descriptor that has been found. */
    method GetDataAndIops(d: Desc, dataRoom: nat, iopsRoom: nat)
      returns (ret: int, newFlag: bool, data: seq<byte>, iops: seq<byte>)
      requires Consistent(cpm)
      requires forall p: Part :: Offset(d, p) + Length(d, p) <= cpm.bufferLength - 20
      modifies this
      ensures Consistent(cpm)
      ensures if old(cpm).state == WStart || dataRoom < d.dataLength || iopsRoom < d.iopsLength
              then ret == -1 && cpm == old(cpm) && !newFlag
              else (
                && cpm == GetBuf(old(cpm)).0
                && ret == (if cpm.app.Some? then 0 else -1)
                && newFlag == (GetBuf(old(cpm)).1 && cpm.app.Some?)
                && (ret == 0 ==> data == Slice(Area(cpm), d, Data) && iops == Slice(Area(cpm), d, Iops)))
    {
      ret, newFlag, data, iops := -1, false, [], [];
      if cpm.state == WStart || dataRoom < d.dataLength || iopsRoom < d.iopsLength {
        return;
      }
      if cpm.newBuf {
        newFlag := true;
        cpm := cpm.(app := cpm.cpm, cpm := cpm.app, newBuf := false);
      }
      if cpm.app.Some? {
        var bytes := cpm.app.value.bytes[cpm.bufferPos..];
        assert Offset(d, Data) + Length(d, Data) <= |bytes| - 4 && Offset(d, Iops) + Length(d, Iops) <= |bytes| - 4;
        data := bytes[d.dataOffset..d.dataOffset + d.dataLength];
        iops := bytes[d.iopsOffset..d.iopsOffset + d.iopsLength];
        ret := 0;
      } else {
        newFlag := false;
      }
    }
  }

  /** The application's buffer from the start of the data: p_buffer. */
  function Area(c: Cpm): (r: seq<byte>)
    requires Consistent(c) && !c.newBuf && c.app.Some?
    ensures |r| == c.bufferLength - 16
  {
    c.app.value.bytes[c.bufferPos..]
  }

  function Opt<T>(x: Option<T>): multiset<T> {
    if x.Some? then multiset{x.value} else multiset{}
  }

  /** No buffer is lost or doubled: of those held and the one received, one may come back to be freed, and the others are held. */
  lemma BuffersBalance(c: Cpm, b: Buf)
    requires Consistent(c) && Delivered(b)
    ensures var (c1, back) := DataInd(c, b); Balance(c.app, c.cpm, Some(b), c1.app, c1.cpm, back)
    ensures var c1 := GetBuf(c).0; Balance(c.app, c.cpm, None, c1.app, c1.cpm, None)
    ensures var c1 := Expire(c).0; Balance(c.app, c.cpm, None, c1.app, c1.cpm, None)
  {
    Exchanged(c.app, c.cpm, Some(b));
    Exchanged(c.app, c.cpm, None);
  }

  /** Three places hold the same buffers before and after. */
  predicate Balance<T(==)>(a: Option<T>, b: Option<T>, c: Option<T>, a1: Option<T>, b1: Option<T>, c1: Option<T>) {
    Opt(a) + Opt(b) + Opt(c) == Opt(a1) + Opt(b1) + Opt(c1)
  }

  lemma Exchanged<T>(a: Option<T>, b: Option<T>, c: Option<T>)
    ensures Balance(a, b, c, a, b, c) && Balance(a, b, c, b, a, c) && Balance(a, b, c, a, c, b)
  {
  }

  // ---------------------------------------------------------------------------------------------
  // The data hold watchdog

  datatype Event = Frame(b: Buf) | Expiry | Read

  function Step(c: Cpm, e: Event): Cpm
    requires Consistent(c) && (e.Frame? ==> Delivered(e.b))
  {
    match e
    case Frame(b) => DataInd(c, b).0
    case Expiry => Expire(c).0
    case Read => GetBuf(c).0
  }

  lemma StepKeepsConsistent(c: Cpm, e: Event)
    requires Consistent(c) && (e.Frame? ==> Delivered(e.b))
    ensures Consistent(Step(c, e))
  {
  }

  function Play(c: Cpm, es: seq<Event>): (r: Cpm)
    requires Consistent(c) && forall e <- es :: e.Frame? ==> Delivered(e.b)
    ensures Consistent(r)
    decreases |es|
  {
    if es == [] then c
    else
      StepKeepsConsistent(c, es[0]);
      assert es[0] in es && forall e <- es[1..] :: e in es;
      Play(Step(c, es[0]), es[1..])
  }

  function Expiries(es: seq<Event>): nat {
    if es == [] then 0 else (if es[0].Expiry? then 1 else 0) + Expiries(es[1..])
  }

  /** Watched from a moment at which dht is known, without an acceptable frame: the consumer runs while the count allows it. */
  lemma {:induction false} WatchdogCounts(c: Cpm, es: seq<Event>)
    requires Consistent(c) && c.state == Run && c.ciRunning
    requires forall e <- es :: e.Frame? ==> Delivered(e.b) && !Accepts(c, e.b)
    ensures var r := Play(c, es);
      if c.dht + Expiries(es) <= c.dataHoldFactor
      then r.state == Run && r.ciRunning && r.dht == c.dht + Expiries(es)
      else r.state == WStart && !r.ciRunning
    decreases |es|
  {
    if es != [] {
      assert es[0] in es && forall e <- es[1..] :: e in es;
      var c1 := Step(c, es[0]);
      StepKeepsConsistent(c, es[0]);
      if c1.state == Run {
        WatchdogCounts(c1, es[1..]);
      } else {
        StaysStopped(c1, es[1..]);
      }
    }
  }

  lemma {:induction false} StaysStopped(c: Cpm, es: seq<Event>)
    requires Consistent(c) && c.state == WStart && !c.ciRunning
    requires forall e <- es :: e.Frame? ==> Delivered(e.b)
    ensures Play(c, es).state == WStart && !Play(c, es).ciRunning
    decreases |es|
  {
    if es != [] {
      assert es[0] in es && forall e <- es[1..] :: e in es;
      StepKeepsConsistent(c, es[0]);
      StaysStopped(Step(c, es[0]), es[1..]);
    }
  }

  /** From an accepted frame on, the consumer stops exactly at the (data_hold_factor + 1)-th expiry unless another one is accepted. */
  lemma StopsExactlyAtHoldTime(c: Cpm, b: Buf, es: seq<Event>)
    requires Consistent(c) && c.ciRunning && Delivered(b) && Accepts(c, b)
    requires var c1 := DataInd(c, b).0; forall e <- es :: e.Frame? ==> Delivered(e.b) && !Accepts(c1, e.b)
    ensures var c1 := DataInd(c, b).0;
      && Consistent(c1) && c1.dht == 0
      && (Play(c1, es).state == Run <==> Expiries(es) <= c.dataHoldFactor)
      && (Play(c1, es).state == WStart <==> Expiries(es) >= c.dataHoldFactor + 1)
  {
    StepKeepsConsistent(c, Frame(b));
    WatchdogCounts(DataInd(c, b).0, es);
  }
}
