/**
 The buffers under LLDP: src/device/pf_block_reader.c and the parser's loop over it, and the bounded
 writes of src/device/pf_block_writer.c with the printer on top. Each method is proved against the
 functions of Lldp and LldpPackets.
 */
module LldpFrames {
  import opened Bytes
  import opened Lldp
  import opened LldpPackets

  /**
   The longest input for which the 16-bit position cannot wrap around when a TLV, at most 511 octets
   long, is skipped. A frame is far shorter.
   */
  const MAX_INPUT: int := 65024

  /** pf_parse_result_t, as far as it occurs here. */
  datatype ParseResult = ParseOk | EndOfInput | ParseError

  /** Parser state: pf_get_info_t, the position in the buffer, and the record that is being filled. */
  class Parser {
    const buf: seq<byte>
    var result: ParseResult
    var pos: nat
    var info: PeerInfo
    // Not initialized before the first organizationally specific TLV
    var orgId: seq<byte>
    var orgSubtype: byte

    ghost predicate Valid()
      reads this
    {
      pos < WORD && |buf| <= MAX_INPUT && |orgId| == 3
    }

    /** What the reads that follow can still get; they all fail after an error and past the end. */
    ghost function Left(): Read<()>
      reads this
    {
      if result == ParseOk && pos <= |buf| then Got((), buf[pos..]) else Fail
    }

    /** The state after a read that yields x. */
    ghost predicate Now<T>(x: Read<T>)
      reads this
    {
      Left() == match x case Fail => Fail case Got(_, rest) => Got((), rest)
    }

    constructor (buf: seq<byte>, orgId: seq<byte>, orgSubtype: byte)
      requires |buf| <= MAX_INPUT && |orgId| == 3
      ensures Valid() && this.buf == buf && result == ParseOk && pos == 0 && info == NO_INFO
      ensures Left() == Got((), buf)
    {
      this.buf, result, pos, info, this.orgId, this.orgSubtype := buf, ParseOk, 0, NO_INFO, orgId, orgSubtype;
    }

    method GetByte() returns (res: byte)
      requires Valid()
      modifies this`result, this`pos
      ensures Valid() && (result == ParseOk ==> Left().Got?)
      ensures old(Left()).Fail? ==> Left().Fail?
      ensures result == if old(result) == ParseOk && Left().Fail? then EndOfInput else old(result)
      ensures old(Left()).Got? ==> var x := Byte(old(Left()).rest); Now(x) && (x.Got? ==> res == x.value)
    {
      res := 0;
      if result != ParseOk {
        // The first error stays
      } else if pos >= |buf| {
        result := EndOfInput;
      } else {
        res := buf[pos];
        pos := pos + 1;
      }
    }

    /** On an error the destination keeps what it holds. */
    method GetMem(n: nat, dest: seq<byte>) returns (x: seq<byte>)
      requires Valid() && n == |dest|
      modifies this`result, this`pos
      ensures Valid() && |x| == n && (result == ParseOk ==> Left().Got?)
      ensures old(Left()).Fail? ==> Left().Fail?
      ensures result == if old(result) == ParseOk && Left().Fail? then EndOfInput else old(result)
      ensures old(Left()).Got? ==> var m := Mem(old(Left()).rest, n); Now(m) && (m.Got? ==> x == m.value)
    {
      x := dest;
      if result != ParseOk {
        // The first error stays
      } else if pos + n > |buf| {
        result := EndOfInput;
      } else {
        x := buf[pos..pos + n];
        assert buf[pos..][..n] == x && buf[pos..][n..] == buf[pos + n..];
        pos := pos + n;
      }
    }

    method GetUint16() returns (res: nat)
      requires Valid()
      modifies this`result, this`pos
      ensures Valid() && res < WORD && (result == ParseOk ==> Left().Got?)
      ensures old(Left()).Fail? ==> Left().Fail?
      ensures old(Left()).Got? ==> var x := Half(old(Left()).rest); Now(x) && (x.Got? ==> res == x.value)
    {
      res := 0;
      if result == ParseOk {
        var hi := GetByte();
        var lo := GetByte();
        res := hi as int * 256 + lo as int;
      }
    }

    method GetUint32() returns (res: nat)
      requires Valid()
      modifies this`result, this`pos
      ensures Valid() && res < LONG && (result == ParseOk ==> Left().Got?)
      ensures old(Left()).Fail? ==> Left().Fail?
      ensures old(Left()).Got? ==> var x := Word(old(Left()).rest); Now(x) && (x.Got? ==> res == x.value)
    {
      var a := GetByte();
      var b := GetByte();
      var c := GetByte();
      var d := GetByte();
      res := a as int * 0x100_0000 + b as int * 0x1_0000 + c as int * 0x100 + d as int;
    }

    /** The offset is 16 bits wide; n can be negative. */
    method Advance(n: int)
      requires Valid() && -4 <= n < 512
      modifies this`pos
      ensures Valid() && pos == (old(pos) + n) % WORD
      ensures old(Left()).Got? && n >= 0 ==> Now(Skip(old(Left()).rest, n))
    {
      pos := (pos + n) % WORD;
      if result == ParseOk && pos <= |buf| && 0 <= n && old(pos) <= |buf| {
        assert buf[old(pos)..][n..] == buf[pos..];
      }
    }

    method GetId(len: nat, max: nat, id: Id) returns (r: Id)
      requires Valid() && Left().Got? && len < 512
      modifies this`result, this`pos
      ensures Valid()
      ensures var x := Lldp.GetId(old(Left()).rest, len, max, id); Now(x) && (x.Got? ==> r == x.value)
    {
      r := id;
      if len == 0 {
        return;
      }
      r := r.(len := len - 1);
      if len - 1 > max {
        Advance(len);
        return;
      }
      var subtype := GetByte();
      var text := GetMem(len - 1, Zeros(len - 1));
      r := Id(text, subtype, true, len - 1);
    }

    method GetTtl(len: nat)
      requires Valid() && Left().Got?
      modifies this`result, this`pos, this`info
      ensures Valid()
      ensures var x := Lldp.GetTtl(old(Left()).rest, len); Now(x) && (x.Got? ==> info == old(info).(ttl := x.value))
    {
      if len != 2 {
        result := ParseError;
        return;
      }
      var ttl := GetUint16();
      info := info.(ttl := ttl);
    }

    method GetDescription(len: nat)
      requires Valid() && Left().Got? && len < 512
      modifies this`result, this`pos, this`info
      ensures Valid()
      ensures var x := Lldp.GetDescription(old(Left()).rest, len, old(info.description));
              Now(x) && (x.Got? ==> info == old(info).(description := x.value))
    {
      if len > MAX_DESCRIPTION {
        Advance(len);
        return;
      }
      var text := GetMem(len, Zeros(len));
      info := info.(description := Description(text, true, len));
    }

    method GetInterface() returns (subtype: byte, value: nat)
      requires Valid()
      modifies this`result, this`pos
      ensures Valid()
      ensures old(Left()).Fail? ==> Left().Fail?
      ensures old(Left()).Got? ==>
        var x := Lldp.GetInterface(old(Left()).rest); Now(x) && (x.Got? ==> (subtype, value) == x.value)
    {
      subtype := GetByte();
      value := GetUint32();
      var oidLen := GetByte();
      // Past the end after a success, or anywhere after an error, the next read fails
      Advance(oidLen);
    }

    method GetAddress(n: nat)
      requires Valid() && 2 <= n <= 32
      modifies this`result, this`pos, this`info
      ensures Valid()
      ensures old(Left()).Fail? ==> Left().Fail?
      ensures old(Left()).Got? ==>
        var x := Lldp.GetAddress(old(Left()).rest, n, old(info.management));
        Now(x) && (x.Got? ==> info == old(info).(management := x.value))
    {
      var subtype := GetByte();
      var value := GetMem(n - 1, Zeros(n - 1));
      var ifSubtype, ifValue := GetInterface();
      if subtype == 1 && n - 1 == 4 {
        info := info.(management := Management(value, subtype, n - 1, ifSubtype, ifValue, true));
      }
    }

    method GetManagement(len: nat)
      requires Valid() && Left().Got? && len < 512
      modifies this`result, this`pos, this`info
      ensures Valid()
      ensures var x := Lldp.GetManagement(old(Left()).rest, len, old(info.management));
              Now(x) && (x.Got? ==> info == old(info).(management := x.value))
    {
      var n: int := GetByte();
      // One less, as a size_t
      if n - 1 < 1 || n - 1 > 31 {
        Advance(len - 1);
        return;
      }
      GetAddress(n);
    }

    method GetDelay(len: nat)
      requires Valid()
      modifies this`result, this`pos, this`info
      ensures Valid()
      ensures old(Left()).Fail? ==> Left().Fail?
      ensures old(Left()).Got? ==>
        var x := Lldp.GetDelay(old(Left()).rest, len); Now(x) && (x.Got? ==> info == old(info).(delay := x.value))
    {
      if len != 24 {
        result := ParseError;
        return;
      }
      var a := GetUint32();
      var b := GetUint32();
      var c := GetUint32();
      var d := GetUint32();
      var e := GetUint32();
      info := info.(delay := Delay([a, b, c, d, e], true));
    }

    /** An octet string of fixed size, in a TLV that has to be len octets long. */
    method GetFixed(len: nat, expected: nat, n: nat, was: seq<byte>) returns (x: seq<byte>)
      requires Valid() && |was| == n
      modifies this`result, this`pos
      ensures Valid()
      ensures old(Left()).Fail? || len != expected ==> Left().Fail?
      ensures old(Left()).Got? && len == expected ==>
        var m := Mem(old(Left()).rest, n); Now(m) && (m.Got? ==> x == m.value)
    {
      x := was;
      if len != expected {
        result := ParseError;
        return;
      }
      x := GetMem(n, was);
    }

    method GetLinkStatus(len: nat)
      requires Valid()
      modifies this`result, this`pos, this`info
      ensures Valid()
      ensures old(Left()).Fail? ==> Left().Fail?
      ensures old(Left()).Got? ==>
        var x := Lldp.GetLinkStatus(old(Left()).rest, len); Now(x) && (x.Got? ==> info == old(info).(phy := x.value))
    {
      info := info.(phy := NO_INFO.phy);
      if len != 9 {
        result := ParseError;
        return;
      }
      var s := GetByte();
      var capabilities := GetUint16();
      var mauType := GetUint16();
      info := info.(phy := LinkStatus(s % 2 == 1, (s / 2) % 2 == 1, capabilities, mauType, true));
    }

    method GetOrgValue(len: nat)
      requires Valid() && KnownOrg(orgId, orgSubtype)
      modifies this`result, this`pos, this`info
      ensures Valid()
      ensures old(Left()).Fail? ==> Left().Fail?
      ensures old(Left()).Got? ==>
        var x := Lldp.GetOrgValue(old(Left()).rest, orgId, orgSubtype, len, old(info));
        Now(x) && (x.Got? ==> info == x.value)
    {
      if orgId == OUI_PNIO {
        if orgSubtype == PNIO_DELAY {
          GetDelay(len);
        } else if orgSubtype == PNIO_PORT_STATUS {
          var status := GetFixed(len, 8, 4, Zeros(4));
          info := info.(portStatus := status);
        } else {
          var mac := GetFixed(len, 10, 6, Zeros(6));
          info := info.(mac := mac);
        }
      } else {
        GetLinkStatus(len);
      }
    }

    /** Behind the header of an organizationally specific TLV whose value starts at start. */
    method SkipUnknown(len: nat, ghost start: nat)
      requires Valid() && len < 512 && start <= |buf|
      requires Left().Got? ==> pos == start + 4
      requires result == ParseOk ==> Left().Got?
      modifies this`pos
      ensures Valid()
      ensures old(Left()).Fail? ==> Left().Fail?
      ensures old(Left()).Got? ==> Now(Skip(buf[start..], len))
    {
      Advance(len - 4);
      if result == ParseOk && start + len <= |buf| {
        assert buf[start..][len..] == buf[pos..];
      }
    }

    method GetOrgSpecific(len: nat)
      requires Valid() && Left().Got? && len < 512
      modifies this
      ensures Valid()
      ensures var x := Lldp.GetOrgSpecific(old(Left()).rest, len, old(info)); Now(x) && (x.Got? ==> info == x.value)
    {
      orgId := GetMem(3, orgId);
      orgSubtype := GetByte();
      if KnownOrg(orgId, orgSubtype) {
        GetOrgValue(len);
      } else {
        SkipUnknown(len, old(pos));
      }
    }

    method GetValue(typ: nat, len: nat)
      requires Valid() && Left().Got? && typ != END && len < 512
      modifies this
      ensures Valid()
      ensures var x := Lldp.GetValue(old(Left()).rest, typ, len, old(info)); Now(x) && (x.Got? ==> info == x.value)
    {
      if typ == CHASSIS_ID {
        var id := GetId(len, MAX_CHASSIS, info.chassis);
        info := info.(chassis := id);
      } else if typ == PORT_ID {
        var id := GetId(len, MAX_PORT, info.port);
        info := info.(port := id);
      } else if typ == TTL {
        GetTtl(len);
      } else if typ == PORT_DESCRIPTION {
        GetDescription(len);
      } else if typ == MANAGEMENT_ADDRESS {
        GetManagement(len);
      } else if typ == ORG_SPEC {
        GetOrgSpecific(len);
      } else {
        Advance(len);
      }
    }

    /** pf_lldp_get_tlv_from_packet: an error reads as the end marker. */
    method GetTlv() returns (typ: nat, len: nat)
      requires Valid()
      modifies this`result, this`pos
      ensures Valid() && len < 512
      ensures old(Left()).Fail? ==> result != ParseOk && typ == END
      ensures old(Left()).Got? ==>
        match Half(old(Left()).rest)
        case Fail => result != ParseOk && typ == END
        case Got(head, rest) => result == ParseOk && Left() == Got((), rest) && typ == head / 512 && len == head % 512
    {
      var head := GetUint16();
      if result == ParseOk {
        return head / 512, head % 512;
      }
      return END, 0;
    }

    /**
     pf_lldp_parse_packet: for every input of a frame's size the loop ends, every read is inside the
     buffer, and the outcome is the one of Parse.
     */
    method ParsePacket() returns (res: int)
      requires Valid() && result == ParseOk && pos == 0 && info == NO_INFO
      modifies this
      ensures res == if Parse(buf, NO_INFO).Got? then 0 else -1
      ensures res == 0 ==> info == Parse(buf, NO_INFO).value
    {
      assert buf[0..] == buf;
      var typ, len := GetTlv();
      while typ != END
        invariant Valid() && len < 512
        invariant typ != END ==> Left().Got? && Parse(buf, NO_INFO) == Resume(typ, len, Left().rest, info)
        invariant typ == END ==> Parse(buf, NO_INFO) == if result == ParseOk then Got(info, []) else Fail
        decreases typ != END, if typ == END then 0 else |Left().rest|
      {
        ghost var before, was := Left().rest, info;
        ghost var x := Lldp.GetValue(before, typ, len, was);
        ValueTakes(before, typ, len, was);
        GetValue(typ, len);
        typ, len := GetTlv();
      }
      return if result == ParseOk then 0 else -1;
    }
  }

  /** The outcome of parsing from behind a TLV header. */
  ghost function Resume(typ: nat, len: nat, rest: seq<byte>, info: PeerInfo): Read<PeerInfo> {
    match Lldp.GetValue(rest, typ, len, info)
    case Fail => Fail
    case Got(i, r) => Parse(r, i)
  }

  // ---------------------------------------------------------------------------------------------

  /** What a write of x that may be cut off anywhere leaves in a buffer of the given size. */
  function Filled(w: seq<byte>, x: seq<byte>, size: nat): seq<byte>
    requires |w| <= size
  {
    if |w| + |x| <= size then w + x else w + x[..size - |w|]
  }

  lemma Associate<T>(a: seq<T>, b: seq<T>, c: seq<T>)
    ensures a + b + c == a + (b + c)
  {
  }

  lemma AssociateFour<T>(a: seq<T>, b: seq<T>, c: seq<T>, d: seq<T>, e: seq<T>)
    ensures a + b + c + d + e == a + (b + c + d + e)
    ensures b == [] ==> a + c + d + e == a + (c + d + e)
  {
  }

  class Printer {
    const buf: array<byte>
    var pos: nat

    ghost predicate Valid()
      reads this
    {
      pos <= buf.Length < WORD
    }

    ghost function Written(): seq<byte>
      reads this, buf
      requires Valid()
    {
      buf[..pos]
    }

    constructor (size: nat)
      requires size < WORD
      ensures Valid() && fresh(buf) && buf.Length == size && Written() == []
    {
      buf, pos := new byte[size], 0;
    }

    method PutByte(v: byte)
      requires Valid()
      modifies this, buf
      ensures Valid() && Written() == Filled(old(Written()), [v], buf.Length)
    {
      if pos + 1 <= buf.Length {
        buf[pos] := v;
        pos := pos + 1;
      }
    }

    /** All of x or nothing. */
    method PutMem(x: seq<byte>)
      requires Valid()
      modifies this, buf
      ensures Valid()
      ensures Written() == if |old(Written())| + |x| <= buf.Length then old(Written()) + x else old(Written())
    {
      if pos + |x| <= buf.Length {
        forall i | 0 <= i < |x| {
          buf[pos + i] := x[i];
        }
        pos := pos + |x|;
      }
    }

    method PutUint16(v: nat)
      requires Valid() && v < WORD
      modifies this, buf
      ensures Valid() && Written() == Filled(old(Written()), Put16(v), buf.Length)
    {
      PutByte(v / 256);
      PutByte(v % 256);
    }

    method PutUint32(v: nat)
      requires Valid() && v < LONG
      modifies this, buf
      ensures Valid() && Written() == Filled(old(Written()), Put32(v), buf.Length)
    {
      PutByte(v / 0x100_0000);
      PutByte(v / 0x1_0000 % 256);
      PutByte(v / 0x100 % 256);
      PutByte(v % 256);
    }

    method AddHeader(typ: nat, len: nat)
      requires Valid() && typ < 128 && pos + 2 <= buf.Length
      modifies this, buf
      ensures Valid() && Written() == old(Written()) + Head(typ, len)
    {
      PutUint16(typ * 512 + len % 256);
    }

    method AddId(typ: nat, id: IdText)
      requires Valid() && typ < 128 && pos + 3 + |id.text| <= buf.Length
      modifies this, buf
      ensures Valid() && Written() == old(Written()) + IdTlv(typ, id)
    {
      AddHeader(typ, 1 + |id.text|);
      PutByte(id.subtype);
      PutMem(id.text);
    }

    method AddTtl()
      requires Valid() && pos + 4 <= buf.Length
      modifies this, buf
      ensures Valid() && Written() == old(Written()) + TtlTlv()
    {
      AddHeader(TTL, 2);
      PutUint16(TTL_SECONDS);
    }

    method AddOrgHeader(oui: seq<byte>, len: nat)
      requires Valid() && |oui| == 3 && pos + 5 <= buf.Length
      modifies this, buf
      ensures Valid() && Written() == old(Written()) + Head(ORG_SPEC, len + 3) + oui
    {
      AddHeader(ORG_SPEC, len + 3);
      PutByte(oui[0]);
      PutByte(oui[1]);
      PutByte(oui[2]);
    }

    method AddPortStatus()
      requires Valid() && pos + 10 <= buf.Length
      modifies this, buf
      ensures Valid() && Written() == old(Written()) + StatusTlv()
    {
      AddOrgHeader(OUI_PNIO, 5);
      PutByte(PNIO_PORT_STATUS);
      PutUint16(0);
      PutUint16(0);
      assert Put16(0) + Put16(0) == [0, 0, 0, 0];
    }

    /** The address is copied without a check of the size. */
    method AddChassisMac(mac: seq<byte>)
      requires Valid() && |mac| == 6 && pos + 12 <= buf.Length
      modifies this, buf
      ensures Valid() && Written() == old(Written()) + MacTlv(mac)
    {
      AddOrgHeader(OUI_PNIO, 1 + 6);
      PutByte(PNIO_CHASSIS_MAC);
      PutMem(mac);
    }

    method AddMacPhy(s: Station)
      requires Valid() && Sized(s) && pos + 11 <= buf.Length
      modifies this, buf
      ensures Valid() && Written() == old(Written()) + PhyTlv(s)
    {
      var status: int := 0;
      if s.supported {
        status := status + 1;
      }
      if s.enabled {
        status := status + 2;
      }
      ghost var w, x0 := Written(), Head(ORG_SPEC, 9) + OUI_IEEE;
      AddOrgHeader(OUI_IEEE, 6);
      Associate(w, Head(ORG_SPEC, 9), OUI_IEEE);
      PutByte(IEEE_MAC_PHY);
      Associate(w, x0, [IEEE_MAC_PHY]);
      ghost var x1 := x0 + [IEEE_MAC_PHY];
      PutByte(status);
      Associate(w, x1, [status]);
      ghost var x2 := x1 + [status];
      PutUint16(s.capabilities);
      Associate(w, x2, Put16(s.capabilities));
      PutUint16(s.mauType);
      Associate(w, x2 + Put16(s.capabilities), Put16(s.mauType));
    }

    method AddManagement(s: Station)
      requires Valid() && Sized(s) && pos + 14 <= buf.Length
      modifies this, buf
      ensures Valid() && Written() == old(Written()) + ManagementTlv(s)
    {
      ghost var w, x0 := Written(), Head(MANAGEMENT_ADDRESS, 12);
      AddHeader(MANAGEMENT_ADDRESS, 12);
      PutByte(1 + |s.ip|);
      Associate(w, x0, [5]);
      ghost var x1 := x0 + [5];
      PutByte(1);
      Associate(w, x1, [1]);
      ghost var x2 := x1 + [1];
      PutMem(s.ip);
      Associate(w, x2, s.ip);
      ghost var x3 := x2 + s.ip;
      AddInterface(s);
      AssociateFour(w, x3, [s.ifSubtype], Put32(s.ifValue), [0]);
    }

    method AddInterface(s: Station)
      requires Valid() && Sized(s) && pos + 6 <= buf.Length
      modifies this, buf
      ensures Valid() && Written() == old(Written()) + [s.ifSubtype] + Put32(s.ifValue) + [0]
    {
      PutByte(s.ifSubtype);
      PutUint32(s.ifValue);
      PutByte(0);
    }

    method AddMandatory(s: Station)
      requires Valid() && Sized(s) && pos + |Mandatory(s)| <= buf.Length
      modifies this, buf
      ensures Valid() && Written() == old(Written()) + Mandatory(s)
    {
      AddId(CHASSIS_ID, s.chassis);
      AddId(PORT_ID, s.port);
      AddTtl();
    }

    method AddOptional(s: Station)
      requires Valid() && Sized(s) && pos + |Optional(s)| <= buf.Length
      modifies this, buf
      ensures Valid() && Written() == old(Written()) + Optional(s)
    {
      ghost var w := Written();
      AddPortStatus();
      AddChassisMac(s.mac);
      AddMacPhy(s);
      AddManagement(s);
      AssociateFour(w, StatusTlv(), MacTlv(s.mac), PhyTlv(s), ManagementTlv(s));
    }

    method AddEthernetHeader(source: seq<byte>)
      requires Valid() && |source| == 6 && pos + 14 <= buf.Length
      modifies this, buf
      ensures Valid() && Written() == old(Written()) + LLDP_MULTICAST + source + Put16(ETHERTYPE_LLDP)
    {
      PutMem(LLDP_MULTICAST);
      PutMem(source);
      PutUint16(ETHERTYPE_LLDP);
    }

    /** pf_lldp_construct_frame: the frame of every station fits, and is written whole. */
    method ConstructFrame(s: Station, source: seq<byte>)
      requires Valid() && pos == 0 && buf.Length == 1500
      requires Sized(s) && |source| == 6
      modifies this, buf
      ensures Valid() && Written() == Frame(s, source)
    {
      AddEthernetHeader(source);
      ghost var w := Written();
      AddMandatory(s);
      AddOptional(s);
      AddHeader(END, 0);
      AssociateFour(w, [], Mandatory(s), Optional(s), Head(END, 0));
    }
  }
}
