/**
 What a station sends in an LLDP packet and what a peer reads from it, src/common/pf_lldp.c. The two main
 results are RoundTrip and IgnorableMakesNoDifference.
 */
module LldpPackets {
  import opened Bytes
  import opened Lldp

  // ---------------------------------------------------------------------------------------------
  // Whole TLVs

  /** The information after parsing exactly the TLVs in r, none of which is the end marker. */
  function Fold(r: seq<byte>, info: PeerInfo): Read<PeerInfo>
    decreases |r|
  {
    if r == [] then Got(info, [])
    else
      match Tlv(r, info)
      case Next(i, rest) => TlvTakesHeader(r, info); Fold(rest, i)
      case _ => Fail
  }

  /** Parsing whole TLVs first and the rest afterwards is parsing all of it. */
  lemma {:induction false} FoldThenParse(r: seq<byte>, info: PeerInfo, t: seq<byte>)
    requires Fold(r, info).Got?
    ensures Parse(r + t, info) == Parse(t, Fold(r, info).value)
    decreases |r|
  {
    if r == [] {
      assert r + t == t;
    } else {
      TlvTakesHeader(r, info);
      TlvExtends(r, info, t);
      var next := Tlv(r, info);
      FoldThenParse(next.rest, next.info, t);
    }
  }

  predicate Known(typ: nat) {
    typ == END || typ == CHASSIS_ID || typ == PORT_ID || typ == TTL || typ == PORT_DESCRIPTION
    || typ == MANAGEMENT_ADDRESS || typ == ORG_SPEC
  }

  /** One TLV of a kind that the parser does not know, with all the octets its header announces. */
  predicate Ignorable(x: seq<byte>) {
    && |x| >= 2
    && |x| - 2 == Get16(x, 0) % 512
    && (!Known(Get16(x, 0) / 512)
        || (Get16(x, 0) / 512 == ORG_SPEC && |x| >= 6 && !KnownOrg(x[2..5], x[5])))
  }

  lemma IgnorableIsSkipped(x: seq<byte>, info: PeerInfo)
    requires Ignorable(x)
    ensures Tlv(x, info) == Next(info, [])
  {
    var len := Get16(x, 0) % 512;
    var r := x[2..];
    assert r[len..] == [];
    if Get16(x, 0) / 512 == ORG_SPEC {
      assert r[..3] == x[2..5];
      assert r[3..][0] == x[5];
    }
  }

  /** A TLV of an unknown kind, put between complete TLVs, changes nothing in the result. */
  lemma IgnorableMakesNoDifference(r: seq<byte>, x: seq<byte>, t: seq<byte>)
    requires Fold(r, NO_INFO).Got?
    requires Ignorable(x)
    ensures Parse(r + x + t, NO_INFO) == Parse(r + t, NO_INFO)
  {
    var info := Fold(r, NO_INFO).value;
    FoldThenParse(r, NO_INFO, x + t);
    FoldThenParse(r, NO_INFO, t);
    IgnorableThenParse(x, info, t);
    assert r + x + t == r + (x + t);
  }

  lemma IgnorableThenParse(x: seq<byte>, info: PeerInfo, t: seq<byte>)
    requires Ignorable(x)
    ensures Parse(x + t, info) == Parse(t, info)
  {
    IgnorableIsSkipped(x, info);
    TlvExtends(x, info, t);
    assert [] + t == t;
  }

  /** An organizationally specific TLV with n octets of value. */
  function ShortTlv(body: seq<byte>): seq<byte>
    requires |body| < 4
  {
    [0xfe, |body|] + body
  }

  /**
   One that is shorter than its own header has the header completed by whatever follows it. It is skipped if and only
   if there is enough and it happens to be unknown; otherwise parsing fails.
   */
  lemma ShortOrgSpecific(body: seq<byte>, t: seq<byte>, info: PeerInfo)
    requires |body| < 4
    ensures var y := body + t; var skipped := |y| >= 4 && !KnownOrg(y[..3], y[3]);
      Tlv(ShortTlv(body) + t, info) == if skipped then Next(info, t) else Failed
  {
    var x := ShortTlv(body) + t;
    var y := body + t;
    assert x == [0xfe, |body|] + y;
    assert Half(x) == Got(127 * 512 + |body|, y) by {
      assert x[2..] == y;
    }
    ShortValue(body, t, info);
  }

  lemma ShortValue(body: seq<byte>, t: seq<byte>, info: PeerInfo)
    requires |body| < 4
    ensures var y := body + t; var skipped := |y| >= 4 && !KnownOrg(y[..3], y[3]);
      GetValue(y, 127, |body|, info) == if skipped then Got(info, t) else Fail
  {
    var y := body + t;
    if |y| >= 4 {
      assert y[3..][0] == y[3];
      assert y[|body|..] == t;
    }
  }

  /** Put between complete TLVs, such a one changes nothing or fails the packet, by the same condition. */
  lemma ShortOrgSpecificInPacket(r: seq<byte>, body: seq<byte>, t: seq<byte>)
    requires Fold(r, NO_INFO).Got? && |body| < 4
    ensures var y := body + t; var skipped := |y| >= 4 && !KnownOrg(y[..3], y[3]);
      Parse(r + ShortTlv(body) + t, NO_INFO) == if skipped then Parse(r + t, NO_INFO) else Fail
  {
    FoldThenParse(r, NO_INFO, ShortTlv(body) + t);
    FoldThenParse(r, NO_INFO, t);
    ShortOrgSpecific(body, t, Fold(r, NO_INFO).value);
    assert r + ShortTlv(body) + t == r + (ShortTlv(body) + t);
  }

  // ---------------------------------------------------------------------------------------------
  // Printer

  datatype IdText = IdText(text: seq<byte>, subtype: byte)

  /** What a port announces about itself. */
  datatype Station = Station(chassis: IdText, port: IdText, mac: seq<byte>, supported: bool, enabled: bool,
                             capabilities: nat, mauType: nat, ip: seq<byte>, ifSubtype: byte, ifValue: nat)

  /** The widths of the fields, and the longest names that the record holds. */
  predicate Sized(s: Station) {
    && |s.chassis.text| <= MAX_CHASSIS && |s.port.text| <= MAX_PORT
    && |s.mac| == 6 && |s.ip| == 4
    && s.capabilities < WORD && s.mauType < WORD && s.ifValue < LONG
  }

  /** A length is passed on as a uint8_t. */
  function Head(typ: nat, len: nat): (r: seq<byte>)
    requires typ < 128
    ensures |r| == 2
  {
    Put16(typ * 512 + len % 256)
  }

  function IdTlv(typ: nat, id: IdText): (r: seq<byte>)
    requires typ < 128
    ensures |r| == 3 + |id.text|
  {
    Head(typ, 1 + |id.text|) + [id.subtype] + id.text
  }

  function TtlTlv(): (r: seq<byte>)
    ensures |r| == 4
  {
    Head(TTL, 2) + Put16(TTL_SECONDS)
  }

  function StatusTlv(): (r: seq<byte>)
    ensures |r| == 10
  {
    Head(ORG_SPEC, 8) + OUI_PNIO + [PNIO_PORT_STATUS] + [0, 0, 0, 0]
  }

  function MacTlv(mac: seq<byte>): (r: seq<byte>)
    ensures |r| == 6 + |mac|
  {
    Head(ORG_SPEC, 10) + OUI_PNIO + [PNIO_CHASSIS_MAC] + mac
  }

  function Autonegotiation(s: Station): byte {
    (if s.supported then 1 else 0) + (if s.enabled then 2 else 0)
  }

  function PhyTlv(s: Station): (r: seq<byte>)
    requires Sized(s)
    ensures |r| == 11
  {
    Head(ORG_SPEC, 9) + OUI_IEEE + [IEEE_MAC_PHY] + [Autonegotiation(s)] + Put16(s.capabilities) + Put16(s.mauType)
  }

  function ManagementTlv(s: Station): (r: seq<byte>)
    requires Sized(s)
    ensures |r| == 14
  {
    Head(MANAGEMENT_ADDRESS, 12) + [5] + [1] + s.ip + [s.ifSubtype] + Put32(s.ifValue) + [0]
  }

  function Mandatory(s: Station): (r: seq<byte>)
    requires Sized(s)
    ensures |r| == 10 + |s.chassis.text| + |s.port.text|
  {
    IdTlv(CHASSIS_ID, s.chassis) + IdTlv(PORT_ID, s.port) + TtlTlv()
  }

  function Optional(s: Station): (r: seq<byte>)
    requires Sized(s)
    ensures |r| == 47
  {
    StatusTlv() + MacTlv(s.mac) + PhyTlv(s) + ManagementTlv(s)
  }

  /** What follows the Ethernet header. */
  function Payload(s: Station): seq<byte>
    requires Sized(s)
  {
    Mandatory(s) + Optional(s) + Head(END, 0)
  }

  const LLDP_MULTICAST: seq<byte> := [0x01, 0x80, 0xc2, 0x00, 0x00, 0x0e]
  const ETHERTYPE_LLDP: int := 0x88cc

  function Frame(s: Station, source: seq<byte>): seq<byte>
    requires Sized(s)
  {
    LLDP_MULTICAST + source + Put16(ETHERTYPE_LLDP) + Payload(s)
  }

  // ---------------------------------------------------------------------------------------------
  // Round trip, one TLV at a time

  /** A header and what is behind it, seen by the parser. */
  lemma HeadIsRead(typ: nat, len: nat, t: seq<byte>)
    requires typ < 128 && len < 256
    ensures Half(Head(typ, len) + t) == Got(typ * 512 + len, t)
    ensures (typ * 512 + len) / 512 == typ && (typ * 512 + len) % 512 == len
  {
    var head := typ * 512 + len;
    RoundTrip16(head);
    PieceIsRead(Put16(head), t);
  }

  /** A piece and what is behind it. */
  lemma PieceIsRead(x: seq<byte>, t: seq<byte>)
    ensures Mem(x + t, |x|) == Got(x, t)
    ensures |x| == 1 ==> Byte(x + t) == Got(x[0], t)
    ensures |x| == 2 ==> Half(x + t) == Got(Get16(x, 0), t)
    ensures |x| == 4 ==> Word(x + t) == Got(Get32(x, 0), t)
  {
    assert (x + t)[..|x|] == x;
    assert (x + t)[|x|..] == t;
  }

  lemma IdIsRead(id: IdText, max: nat, was: Id, t: seq<byte>)
    requires |id.text| <= max
    ensures GetId([id.subtype] + id.text + t, 1 + |id.text|, max, was) == Got(Id(id.text, id.subtype, true, |id.text|), t)
  {
    assert [id.subtype] + id.text + t == [id.subtype] + (id.text + t);
    PieceIsRead([id.subtype], id.text + t);
    PieceIsRead(id.text, t);
  }

  lemma ChassisRoundTrip(id: IdText, info: PeerInfo, t: seq<byte>)
    requires |id.text| <= MAX_CHASSIS
    ensures Tlv(IdTlv(CHASSIS_ID, id) + t, info)
         == Next(info.(chassis := Id(id.text, id.subtype, true, |id.text|)), t)
  {
    var rest := [id.subtype] + id.text + t;
    assert IdTlv(CHASSIS_ID, id) + t == Head(CHASSIS_ID, 1 + |id.text|) + rest;
    HeadIsRead(CHASSIS_ID, 1 + |id.text|, rest);
    IdIsRead(id, MAX_CHASSIS, info.chassis, t);
  }

  /**
   The TLV with the port ID is read back exactly when the ID is at most 254 octets long: the length of a
   longer one wraps around to zero, and then the parser leaves the record alone.
   */
  lemma PortRoundTrip(id: IdText, info: PeerInfo, t: seq<byte>)
    requires |id.text| <= MAX_PORT
    ensures Tlv(IdTlv(PORT_ID, id) + t, info) == Next(info.(port := Id(id.text, id.subtype, true, |id.text|)), t)
       <==> |id.text| <= 254
  {
    var rest := [id.subtype] + id.text + t;
    if |id.text| <= 254 {
      assert IdTlv(PORT_ID, id) + t == Head(PORT_ID, 1 + |id.text|) + rest;
      HeadIsRead(PORT_ID, 1 + |id.text|, rest);
      IdIsRead(id, MAX_PORT, info.port, t);
    } else {
      assert IdTlv(PORT_ID, id) + t == Head(PORT_ID, 0) + rest;
      HeadIsRead(PORT_ID, 0, rest);
      assert Tlv(IdTlv(PORT_ID, id) + t, info) == Next(info.(port := info.port), rest);
      assert |rest| != |t|;
    }
  }

  lemma TtlRoundTrip(info: PeerInfo, t: seq<byte>)
    ensures Tlv(TtlTlv() + t, info) == Next(info.(ttl := TTL_SECONDS), t)
  {
    assert TtlTlv() + t == Head(TTL, 2) + (Put16(TTL_SECONDS) + t);
    HeadIsRead(TTL, 2, Put16(TTL_SECONDS) + t);
    PieceIsRead(Put16(TTL_SECONDS), t);
  }

  /** Header, organization and subtype of an organizationally specific TLV with the value x. */
  lemma OrgHeadIsRead(oui: seq<byte>, subtype: byte, x: seq<byte>, t: seq<byte>)
    requires |oui| == 3 && |x| < 250
    ensures var r := Head(ORG_SPEC, 4 + |x|) + oui + [subtype] + x + t;
            Half(r) == Got(ORG_SPEC * 512 + 4 + |x|, oui + [subtype] + x + t)
    ensures Mem(oui + [subtype] + x + t, 3) == Got(oui, [subtype] + x + t)
    ensures Byte([subtype] + x + t) == Got(subtype, x + t)
  {
    var r := oui + [subtype] + x + t;
    assert Head(ORG_SPEC, 4 + |x|) + oui + [subtype] + x + t == Head(ORG_SPEC, 4 + |x|) + r;
    HeadIsRead(ORG_SPEC, 4 + |x|, r);
    assert r == oui + ([subtype] + x + t);
    PieceIsRead(oui, [subtype] + x + t);
    assert [subtype] + x + t == [subtype] + (x + t);
    PieceIsRead([subtype], x + t);
  }

  lemma StatusRoundTrip(info: PeerInfo, t: seq<byte>)
    ensures Tlv(StatusTlv() + t, info) == Next(info.(portStatus := [0, 0, 0, 0]), t)
  {
    OrgHeadIsRead(OUI_PNIO, PNIO_PORT_STATUS, [0, 0, 0, 0], t);
    PieceIsRead([0, 0, 0, 0], t);
  }

  lemma MacRoundTrip(mac: seq<byte>, info: PeerInfo, t: seq<byte>)
    requires |mac| == 6
    ensures Tlv(MacTlv(mac) + t, info) == Next(info.(mac := mac), t)
  {
    OrgHeadIsRead(OUI_PNIO, PNIO_CHASSIS_MAC, mac, t);
    PieceIsRead(mac, t);
  }

  function PhyOf(s: Station): LinkStatus {
    LinkStatus(s.supported, s.enabled, s.capabilities, s.mauType, true)
  }

  lemma PhyValueIsRead(s: Station, t: seq<byte>)
    requires Sized(s)
    ensures GetLinkStatus([Autonegotiation(s)] + Put16(s.capabilities) + Put16(s.mauType) + t, 9) == Got(PhyOf(s), t)
  {
    var c, m := Put16(s.capabilities), Put16(s.mauType);
    assert [Autonegotiation(s)] + c + m + t == [Autonegotiation(s)] + (c + (m + t));
    PieceIsRead([Autonegotiation(s)], c + (m + t));
    PieceIsRead(c, m + t);
    PieceIsRead(m, t);
    RoundTrip16(s.capabilities);
    RoundTrip16(s.mauType);
  }

  lemma PhyRoundTrip(s: Station, info: PeerInfo, t: seq<byte>)
    requires Sized(s)
    ensures Tlv(PhyTlv(s) + t, info) == Next(info.(phy := PhyOf(s)), t)
  {
    var x := [Autonegotiation(s)] + Put16(s.capabilities) + Put16(s.mauType);
    PhyShape(Head(ORG_SPEC, 9) + OUI_IEEE + [IEEE_MAC_PHY], [Autonegotiation(s)], Put16(s.capabilities), Put16(s.mauType));
    OrgHeadIsRead(OUI_IEEE, IEEE_MAC_PHY, x, t);
    var r := OUI_IEEE + [IEEE_MAC_PHY] + x + t;
    PhyIsValue(s, info, r, [IEEE_MAC_PHY] + x + t, x + t, t);
    TlvOfValue(PhyTlv(s) + t, ORG_SPEC * 512 + 9, r, info, info.(phy := PhyOf(s)), t);
  }

  lemma TlvOfValue(x: seq<byte>, head: nat, r: seq<byte>, info: PeerInfo, info': PeerInfo, t: seq<byte>)
    requires Half(x) == Got(head, r) && head / 512 != END && GetValue(r, head / 512, head % 512, info) == Got(info', t)
    ensures Tlv(x, info) == Next(info', t)
  {
  }

  lemma PhyShape(head: seq<byte>, a: seq<byte>, c: seq<byte>, m: seq<byte>)
    ensures head + a + c + m == head + (a + c + m)
  {
  }

  lemma PhyIsValue(s: Station, info: PeerInfo, r: seq<byte>, r3: seq<byte>, r4: seq<byte>, t: seq<byte>)
    requires Sized(s) && Mem(r, 3) == Got(OUI_IEEE, r3) && Byte(r3) == Got(IEEE_MAC_PHY, r4)
    requires r4 == [Autonegotiation(s)] + Put16(s.capabilities) + Put16(s.mauType) + t
    ensures GetValue(r, ORG_SPEC, 9, info) == Got(info.(phy := PhyOf(s)), t)
  {
    PhyValueIsRead(s, t);
  }

  function ManagementOf(s: Station): Management {
    Management(s.ip, 1, 4, s.ifSubtype, s.ifValue, true)
  }

  lemma InterfaceIsRead(s: Station, t: seq<byte>)
    requires Sized(s)
    ensures GetInterface([s.ifSubtype] + Put32(s.ifValue) + [0] + t) == Got((s.ifSubtype, s.ifValue), t)
  {
    var v := Put32(s.ifValue);
    var z: seq<byte> := [0];
    assert [s.ifSubtype] + v + z + t == [s.ifSubtype] + (v + (z + t));
    PieceIsRead([s.ifSubtype], v + (z + t));
    PieceIsRead(v, z + t);
    PieceIsRead(z, t);
    RoundTrip32(s.ifValue);
    assert t[0..] == t;
  }

  lemma ManagementRoundTrip(s: Station, info: PeerInfo, t: seq<byte>)
    requires Sized(s)
    ensures Tlv(ManagementTlv(s) + t, info) == Next(info.(management := ManagementOf(s)), t)
  {
    var number := [s.ifSubtype] + Put32(s.ifValue) + [0] + t;
    var five: seq<byte>, one: seq<byte> := [5], [1];
    assert ManagementTlv(s) + t == Head(MANAGEMENT_ADDRESS, 12) + (five + (one + (s.ip + number)));
    HeadIsRead(MANAGEMENT_ADDRESS, 12, five + (one + (s.ip + number)));
    PieceIsRead(five, one + (s.ip + number));
    PieceIsRead(one, s.ip + number);
    PieceIsRead(s.ip, number);
    InterfaceIsRead(s, t);
  }

  lemma ParseNext(x: seq<byte>, t: seq<byte>, info: PeerInfo, next: PeerInfo)
    requires Tlv(x + t, info) == Next(next, t)
    ensures Parse(x + t, info) == Parse(t, next)
  {
  }

  /** The TLVs from the MAC address on. */
  lemma TailRoundTrip(s: Station, info: PeerInfo)
    requires Sized(s)
    ensures Parse(MacTlv(s.mac) + (PhyTlv(s) + (ManagementTlv(s) + Head(END, 0))), info)
         == Got(info.(mac := s.mac, phy := PhyOf(s), management := ManagementOf(s)), [])
  {
    var end := Head(END, 0);
    var i1 := info.(mac := s.mac);
    MacRoundTrip(s.mac, info, PhyTlv(s) + (ManagementTlv(s) + end));
    ParseNext(MacTlv(s.mac), PhyTlv(s) + (ManagementTlv(s) + end), info, i1);
    var i2 := i1.(phy := PhyOf(s));
    PhyRoundTrip(s, i1, ManagementTlv(s) + end);
    ParseNext(PhyTlv(s), ManagementTlv(s) + end, i1, i2);
    var i3 := i2.(management := ManagementOf(s));
    ManagementRoundTrip(s, i2, end);
    ParseNext(ManagementTlv(s), end, i2, i3);
    EndIsRead(i3);
  }

  lemma EndIsRead(info: PeerInfo)
    ensures Parse(Head(END, 0), info) == Got(info, [])
  {
    HeadIsRead(END, 0, []);
    assert Head(END, 0) + [] == Head(END, 0);
  }

  /** What a peer should know. */
  function InfoOf(s: Station): PeerInfo {
    PeerInfo(Id(s.chassis.text, s.chassis.subtype, true, |s.chassis.text|),
             Id(s.port.text, s.port.subtype, true, |s.port.text|),
             TTL_SECONDS, NO_INFO.description, ManagementOf(s), NO_INFO.delay, [0, 0, 0, 0], s.mac, PhyOf(s))
  }

  /** Parsing the payload of a frame gives back everything that was printed. */
  lemma RoundTrip(s: Station)
    requires Sized(s) && |s.port.text| <= 254
    ensures Parse(Payload(s), NO_INFO) == Got(InfoOf(s), [])
  {
    var t4 := MacTlv(s.mac) + (PhyTlv(s) + (ManagementTlv(s) + Head(END, 0)));
    var t3 := StatusTlv() + t4;
    var t2 := TtlTlv() + t3;
    var t1 := IdTlv(PORT_ID, s.port) + t2;
    assert Payload(s) == IdTlv(CHASSIS_ID, s.chassis) + t1;
    var i1 := NO_INFO.(chassis := Id(s.chassis.text, s.chassis.subtype, true, |s.chassis.text|));
    ChassisRoundTrip(s.chassis, NO_INFO, t1);
    ParseNext(IdTlv(CHASSIS_ID, s.chassis), t1, NO_INFO, i1);
    var i2 := i1.(port := Id(s.port.text, s.port.subtype, true, |s.port.text|));
    PortRoundTrip(s.port, i1, t2);
    ParseNext(IdTlv(PORT_ID, s.port), t2, i1, i2);
    var i3 := i2.(ttl := TTL_SECONDS);
    TtlRoundTrip(i2, t3);
    ParseNext(TtlTlv(), t3, i2, i3);
    StatusRoundTrip(i3, t4);
    ParseNext(StatusTlv(), t4, i3, i3.(portStatus := [0, 0, 0, 0]));
    TailRoundTrip(s, i3);
  }

  /** The same for the frame on the wire, from behind its Ethernet header. */
  lemma SentFrameIsRead(s: Station, source: seq<byte>)
    requires Sized(s) && |source| == 6 && |s.port.text| <= 254
    ensures |Frame(s, source)| <= 14 + 554 && Parse(Frame(s, source)[14..], NO_INFO) == Got(InfoOf(s), [])
  {
    RoundTrip(s);
    assert Frame(s, source)[14..] == Payload(s);
  }
}
