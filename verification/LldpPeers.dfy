/**
 The octets of an LLDP packet, written out, against src/common/pf_lldp.c in both directions: what the printer sends is
 these octets, and from what any peer sends the parser keeps every field. A peer may send more than this stack does: a
 port description, measured delays, and a port status other than zero.
 */
module LldpPeers {
  import opened Bytes
  import opened Lldp
  import opened LldpPackets

  // Type and length are 7 and 9 bits wide; none of these is longer than 255 octets

  function ChassisOctets(id: IdText): seq<byte>
    requires |id.text| <= MAX_CHASSIS
  {
    [0x02, 1 + |id.text|, id.subtype] + id.text
  }

  function PortOctets(id: IdText): seq<byte>
    requires |id.text| <= 254
  {
    [0x04, 1 + |id.text|, id.subtype] + id.text
  }

  function TtlOctets(ttl: nat): seq<byte>
    requires ttl < WORD
  {
    [0x06, 2, ttl / 256, ttl % 256]
  }

  /** Up to 511 octets fit into a TLV. */
  function DescriptionOctets(text: seq<byte>): seq<byte>
    requires |text| <= 511
  {
    [0x08 + |text| / 256, |text| % 256] + text
  }

  /** Five delays of the peer in this order: received local and remote, sent local and remote, and cable. */
  function DelayWords(d: seq<nat>): seq<byte>
    requires |d| == 5 && forall i :: 0 <= i < 5 ==> d[i] < LONG
  {
    Put32(d[0]) + (Put32(d[1]) + (Put32(d[2]) + (Put32(d[3]) + Put32(d[4]))))
  }

  function DelayOctets(d: seq<nat>): seq<byte>
    requires |d| == 5 && forall i :: 0 <= i < 5 ==> d[i] < LONG
  {
    [0xfe, 24, 0x00, 0x0e, 0xcf, 1] + DelayWords(d)
  }

  function StatusOctets(status: seq<byte>): seq<byte> {
    [0xfe, 8, 0x00, 0x0e, 0xcf, 2] + status
  }

  function MacOctets(mac: seq<byte>): seq<byte> {
    [0xfe, 10, 0x00, 0x0e, 0xcf, 5] + mac
  }

  function PhyOctets(s: Station): seq<byte>
    requires Sized(s)
  {
    [0xfe, 9, 0x00, 0x12, 0x0f, 1, (if s.supported then 1 else 0) + (if s.enabled then 2 else 0),
     s.capabilities / 256, s.capabilities % 256, s.mauType / 256, s.mauType % 256]
  }

  function ManagementOctets(s: Station): seq<byte>
    requires Sized(s)
  {
    [0x10, 12, 5, 1] + (s.ip + ([s.ifSubtype] + (Put32(s.ifValue) + [0])))
  }

  // ---------------------------------------------------------------------------------------------
  // The printer's side

  lemma HeadOctets(typ: nat, len: nat)
    requires typ < 128 && len < 256
    ensures Head(typ, len) == [2 * typ, len]
  {
  }

  lemma IdsPrinted(s: Station)
    requires Sized(s) && |s.port.text| <= 254
    ensures IdTlv(CHASSIS_ID, s.chassis) == ChassisOctets(s.chassis)
    ensures IdTlv(PORT_ID, s.port) == PortOctets(s.port)
  {
    HeadOctets(CHASSIS_ID, 1 + |s.chassis.text|);
    HeadOctets(PORT_ID, 1 + |s.port.text|);
  }

  lemma OthersPrinted(s: Station)
    requires Sized(s)
    ensures TtlTlv() == TtlOctets(20) && StatusTlv() == StatusOctets([0, 0, 0, 0]) && MacTlv(s.mac) == MacOctets(s.mac)
    ensures Head(END, 0) == [0, 0]
  {
    HeadOctets(TTL, 2);
    HeadOctets(ORG_SPEC, 8);
    HeadOctets(ORG_SPEC, 10);
    HeadOctets(END, 0);
  }

  lemma PhyPrinted(s: Station)
    requires Sized(s)
    ensures PhyTlv(s) == PhyOctets(s)
  {
    HeadOctets(ORG_SPEC, 9);
  }

  lemma ManagementPrinted(s: Station)
    requires Sized(s)
    ensures ManagementTlv(s) == ManagementOctets(s)
  {
    HeadOctets(MANAGEMENT_ADDRESS, 12);
  }

  /** The TLVs of a station in the order in which they are sent. */
  function StationOctets(s: Station): seq<byte>
    requires Sized(s) && |s.port.text| <= 254
  {
    ChassisOctets(s.chassis) + (PortOctets(s.port) + (TtlOctets(20) + (StatusOctets([0, 0, 0, 0]) + (MacOctets(s.mac) +
      (PhyOctets(s) + (ManagementOctets(s) + [0, 0]))))))
  }

  lemma Regroup<T>(a: seq<T>, b: seq<T>, c: seq<T>, d: seq<T>, e: seq<T>, f: seq<T>, g: seq<T>, h: seq<T>)
    ensures a + b + c + (d + e + f + g) + h == a + (b + (c + (d + (e + (f + (g + h))))))
  {
  }

  /** A frame, octet by octet: to the LLDP multicast address, from the port's own, Ethertype 0x88cc, and the TLVs. */
  lemma FrameOctets(s: Station, source: seq<byte>)
    requires Sized(s) && |source| == 6 && |s.port.text| <= 254
    ensures Frame(s, source) == [0x01, 0x80, 0xc2, 0x00, 0x00, 0x0e] + source + [0x88, 0xcc] + StationOctets(s)
  {
    IdsPrinted(s);
    OthersPrinted(s);
    PhyPrinted(s);
    ManagementPrinted(s);
    Regroup(ChassisOctets(s.chassis), PortOctets(s.port), TtlOctets(20), StatusOctets([0, 0, 0, 0]), MacOctets(s.mac),
            PhyOctets(s), ManagementOctets(s), [0, 0]);
  }

  // ---------------------------------------------------------------------------------------------
  // The parser's side

  /** A description of up to 59 octets is kept, and a longer one skipped. */
  lemma DescriptionIsRead(text: seq<byte>, info: PeerInfo, t: seq<byte>)
    requires |text| <= 511
    ensures Tlv(DescriptionOctets(text) + t, info)
         == Next(if |text| <= 59 then info.(description := Description(text, true, |text|)) else info, t)
  {
    var r := DescriptionOctets(text) + t;
    assert r == [0x08 + |text| / 256, |text| % 256] + (text + t);
    PieceIsRead([0x08 + |text| / 256, |text| % 256], text + t);
    PieceIsRead(text, t);
    TypeAndLength(PORT_DESCRIPTION, |text|);
  }

  /** Chassis ID and port ID with any name that fits into a TLV. */
  function IdOctets(typ: nat, id: IdText): seq<byte>
    requires typ < 128 && |id.text| <= 510
  {
    [2 * typ + (1 + |id.text|) / 256, (1 + |id.text|) % 256] + ([id.subtype] + id.text)
  }

  /** A name is kept if it is not too long; of one that is, only the length. */
  function KeptId(id: IdText, max: nat, was: Id): Id {
    if |id.text| <= max then Id(id.text, id.subtype, true, |id.text|) else was.(len := |id.text|)
  }

  lemma AnyIdIsRead(id: IdText, info: PeerInfo, t: seq<byte>)
    requires |id.text| <= 510
    ensures Tlv(IdOctets(CHASSIS_ID, id) + t, info) == Next(info.(chassis := KeptId(id, 240, info.chassis)), t)
    ensures Tlv(IdOctets(PORT_ID, id) + t, info) == Next(info.(port := KeptId(id, 255, info.port)), t)
  {
    IdHeadIsRead(CHASSIS_ID, id, t);
    IdHeadIsRead(PORT_ID, id, t);
    IdValueIsRead(id, 240, info.chassis, t);
    IdValueIsRead(id, 255, info.port, t);
  }

  lemma IdHeadIsRead(typ: nat, id: IdText, t: seq<byte>)
    requires typ < 128 && |id.text| <= 510
    ensures var len := 1 + |id.text|;
      && Half(IdOctets(typ, id) + t) == Got(typ * 512 + len, [id.subtype] + id.text + t)
      && (typ * 512 + len) / 512 == typ && (typ * 512 + len) % 512 == len
  {
    var len := 1 + |id.text|;
    TypeAndLength(typ, len);
    assert IdOctets(typ, id) + t == [2 * typ + len / 256, len % 256] + ([id.subtype] + id.text + t);
    PieceIsRead([2 * typ + len / 256, len % 256], [id.subtype] + id.text + t);
  }

  lemma IdValueIsRead(id: IdText, max: nat, was: Id, t: seq<byte>)
    ensures GetId([id.subtype] + id.text + t, 1 + |id.text|, max, was) == Got(KeptId(id, max, was), t)
  {
    if |id.text| <= max {
      IdIsRead(id, max, was, t);
    } else {
      PieceIsRead([id.subtype] + id.text, t);
    }
  }

  /** The interface number of a management address, and an object identifier. */
  function NumberOctets(ifSubtype: byte, ifValue: nat, oid: seq<byte>): (r: seq<byte>)
    requires ifValue < LONG && |oid| <= 128
    ensures |r| == 6 + |oid|
  {
    [ifSubtype] + (Put32(ifValue) + ([|oid|] + oid))
  }

  /** A management address of any family, as long as section 9.5.9 of IEEE 802.1AB-2005 allows. */
  function AddressOctets(subtype: byte, address: seq<byte>, number: seq<byte>): seq<byte>
    requires 1 <= |address| <= 31 && |number| <= 134
  {
    var len := 2 + |address| + |number|;
    [0x10, len] + ([1 + |address|] + ([subtype] + (address + number)))
  }

  /** An IPv4 address is kept with its interface number; any other one makes no difference. */
  lemma AddressIsRead(subtype: byte, address: seq<byte>, ifSubtype: byte, ifValue: nat, oid: seq<byte>, info: PeerInfo,
                      t: seq<byte>)
    requires 1 <= |address| <= 31 && ifValue < LONG && |oid| <= 128
    ensures Tlv(AddressOctets(subtype, address, NumberOctets(ifSubtype, ifValue, oid)) + t, info)
         == Next(if subtype == 1 && |address| == 4
                 then info.(management := Management(address, 1, 4, ifSubtype, ifValue, true)) else info, t)
  {
    NumberIsRead(ifSubtype, ifValue, oid, t);
    var number := NumberOctets(ifSubtype, ifValue, oid);
    AddressTlv(subtype, address, number, (ifSubtype, ifValue), info, t);
  }

  lemma AddressTlv(subtype: byte, address: seq<byte>, number: seq<byte>, value: (byte, nat), info: PeerInfo, t: seq<byte>)
    requires 1 <= |address| <= 31 && |number| <= 134 && GetInterface(number + t) == Got(value, t)
    ensures Tlv(AddressOctets(subtype, address, number) + t, info)
         == Next(if subtype == 1 && |address| == 4
                 then info.(management := Management(address, 1, 4, value.0, value.1, true)) else info, t)
  {
    var y := [subtype] + (address + (number + t));
    AddressWhole(subtype, address, number, t);
    AddressValueIsRead(subtype, address, number, value, info.management, t);
    ManagementTlvIs(1 + |address|, 2 + |address| + |number|, y, info);
  }

  lemma AddressWhole(subtype: byte, address: seq<byte>, number: seq<byte>, t: seq<byte>)
    requires 1 <= |address| <= 31 && |number| <= 134
    ensures AddressOctets(subtype, address, number) + t ==
      [0x10, 2 + |address| + |number|] + ([1 + |address|] + ([subtype] + (address + (number + t))))
  {
    AddressShape([0x10, 2 + |address| + |number|], [1 + |address|], [subtype], address, number, t);
  }

  lemma ManagementTlvIs(n: byte, len: nat, y: seq<byte>, info: PeerInfo)
    requires 2 <= n <= 32 && len <= 255
    ensures Tlv([0x10, len] + ([n] + y), info) ==
      match GetAddress(y, n, info.management) case Fail => Failed case Got(m, r) => Next(info.(management := m), r)
  {
    TypeAndLength(MANAGEMENT_ADDRESS, len);
    PieceIsRead([0x10, len], [n] + y);
    ManagementIsAddress(n, len, y, info);
  }

  lemma ManagementIsAddress(n: byte, len: nat, y: seq<byte>, info: PeerInfo)
    requires 2 <= n <= 32
    ensures GetValue([n] + y, MANAGEMENT_ADDRESS, len, info) ==
      match GetAddress(y, n, info.management) case Fail => Fail case Got(m, r) => Got(info.(management := m), r)
  {
    PieceIsRead([n], y);
  }

  lemma AddressShape<T>(a: seq<T>, b: seq<T>, c: seq<T>, d: seq<T>, e: seq<T>, t: seq<T>)
    ensures a + (b + (c + (d + e))) + t == a + (b + (c + (d + (e + t))))
  {
  }

  lemma NumberIsRead(ifSubtype: byte, ifValue: nat, oid: seq<byte>, t: seq<byte>)
    requires ifValue < LONG && |oid| <= 128
    ensures GetInterface(NumberOctets(ifSubtype, ifValue, oid) + t) == Got((ifSubtype, ifValue), t)
  {
    var l: seq<byte> := [|oid|];
    assert NumberOctets(ifSubtype, ifValue, oid) + t == [ifSubtype] + (Put32(ifValue) + (l + (oid + t)));
    PieceIsRead([ifSubtype], Put32(ifValue) + (l + (oid + t)));
    WordIsRead(ifValue, l + (oid + t));
    PieceIsRead(l, oid + t);
    PieceIsRead(oid, t);
  }

  lemma AddressValueIsRead(subtype: byte, address: seq<byte>, number: seq<byte>, value: (byte, nat), was: Management, t: seq<byte>)
    requires 1 <= |address| <= 31 && GetInterface(number + t) == Got(value, t)
    ensures GetAddress([subtype] + (address + (number + t)), 1 + |address|, was) ==
      Got(if subtype == 1 && |address| == 4 then Management(address, 1, 4, value.0, value.1, true) else was, t)
  {
    PieceIsRead([subtype], address + (number + t));
    PieceIsRead(address, number + t);
  }

  /** An address of no usable length: the TLV is skipped by its own length; an empty TLV leaves the octet that was looked at. */
  lemma UnusableAddressIsSkipped(n: byte, x: seq<byte>, info: PeerInfo, t: seq<byte>)
    requires !(2 <= n <= 32) && |x| <= 254
    ensures Tlv([0x10, 1 + |x|] + ([n] + (x + t)), info) == Next(info, t)
    ensures Tlv([0x10, 0] + ([n] + t), info) == Next(info, [n] + t)
  {
    UnusableValue(n, 1 + |x|, x + t, info);
    PieceIsRead(x, t);
    assert (x + t)[|x|..] == t;
    UnusableValue(n, 0, t, info);
  }

  lemma UnusableValue(n: byte, len: nat, y: seq<byte>, info: PeerInfo)
    requires !(2 <= n <= 32) && len <= 255 && len <= 1 + |y|
    ensures Tlv([0x10, len] + ([n] + y), info) == Next(info, if len == 0 then [n] + y else y[len - 1..])
  {
    TypeAndLength(MANAGEMENT_ADDRESS, len);
    PieceIsRead([0x10, len], [n] + y);
    PieceIsRead([n], y);
    assert info.(management := info.management) == info;
  }

  /** A time to live of another length than 2 fails the packet. */
  lemma WrongTtlFails(len: nat, x: seq<byte>, info: PeerInfo)
    requires len <= 511 && len != 2
    ensures Tlv([0x06 + len / 256, len % 256] + x, info) == Failed
  {
    TypeAndLength(TTL, len);
    PieceIsRead([0x06 + len / 256, len % 256], x);
  }

  lemma TtlIsRead(ttl: nat, info: PeerInfo, t: seq<byte>)
    requires ttl < WORD
    ensures Tlv(TtlOctets(ttl) + t, info) == Next(info.(ttl := ttl), t)
  {
    assert TtlOctets(ttl) + t == [0x06, 2] + (Put16(ttl) + t);
    PieceIsRead([0x06, 2], Put16(ttl) + t);
    PieceIsRead(Put16(ttl), t);
    RoundTrip16(ttl);
  }

  lemma WordIsRead(n: nat, t: seq<byte>)
    requires n < LONG
    ensures Word(Put32(n) + t) == Got(n, t)
  {
    PieceIsRead(Put32(n), t);
    RoundTrip32(n);
  }

  lemma DelayValueIsRead(a: nat, b: nat, c: nat, d: nat, e: nat, t: seq<byte>)
    requires a < LONG && b < LONG && c < LONG && d < LONG && e < LONG
    ensures GetDelay(Put32(a) + (Put32(b) + (Put32(c) + (Put32(d) + (Put32(e) + t)))), 24) == Got(Delay([a, b, c, d, e], true), t)
  {
    WordIsRead(a, Put32(b) + (Put32(c) + (Put32(d) + (Put32(e) + t))));
    WordIsRead(b, Put32(c) + (Put32(d) + (Put32(e) + t)));
    WordIsRead(c, Put32(d) + (Put32(e) + t));
    WordIsRead(d, Put32(e) + t);
    WordIsRead(e, t);
  }

  /** Header, organization and subtype, whatever the length claims. */
  lemma OrgOctets(len: nat, oui: seq<byte>, subtype: byte, x: seq<byte>, info: PeerInfo)
    requires |oui| == 3 && KnownOrg(oui, subtype) && len <= 511
    ensures Tlv([0xfe + len / 256, len % 256] + (oui + ([subtype] + x)), info) ==
      match GetOrgValue(x, oui, subtype, len, info) case Fail => Failed case Got(i, r) => Next(i, r)
  {
    var y := oui + ([subtype] + x);
    HeadOfOrg(len, y);
    OrgIsRead(len, oui, subtype, x, info);
    assert GetValue(y, ORG_SPEC, len, info) == GetOrgValue(x, oui, subtype, len, info);
  }

  lemma HeadOfOrg(len: nat, y: seq<byte>)
    requires len <= 511
    ensures Half([0xfe + len / 256, len % 256] + y) == Got(127 * 512 + len, y)
    ensures (127 * 512 + len) / 512 == 127 && (127 * 512 + len) % 512 == len
  {
    PieceIsRead([0xfe + len / 256, len % 256], y);
    TypeAndLength(127, len);
  }

  lemma TypeAndLength(typ: nat, len: nat)
    requires typ < 128 && len <= 511
    ensures Get16([2 * typ + len / 256, len % 256], 0) == typ * 512 + len
    ensures (typ * 512 + len) / 512 == typ && (typ * 512 + len) % 512 == len
  {
  }

  lemma OrgIsRead(len: nat, oui: seq<byte>, subtype: byte, x: seq<byte>, info: PeerInfo)
    requires |oui| == 3 && KnownOrg(oui, subtype)
    ensures GetOrgSpecific(oui + ([subtype] + x), len, info) == GetOrgValue(x, oui, subtype, len, info)
  {
    PieceIsRead(oui, [subtype] + x);
    PieceIsRead([subtype], x);
  }

  /** The length that each known TLV has to have. */
  function Expected(oui: seq<byte>, subtype: byte): nat {
    if oui == OUI_IEEE then 9 else if subtype == PNIO_DELAY then 24 else if subtype == PNIO_PORT_STATUS then 8 else 10
  }

  /** A known organizationally specific TLV of another length than its own fails the packet. */
  lemma WrongLengthFails(len: nat, oui: seq<byte>, subtype: byte, x: seq<byte>, info: PeerInfo)
    requires |oui| == 3 && KnownOrg(oui, subtype) && len <= 511 && len != Expected(oui, subtype)
    ensures Tlv([0xfe + len / 256, len % 256] + (oui + ([subtype] + x)), info) == Failed
  {
    OrgOctets(len, oui, subtype, x, info);
  }

  lemma FiveWords<T>(a: seq<T>, b: seq<T>, c: seq<T>, d: seq<T>, e: seq<T>, t: seq<T>)
    ensures a + (b + (c + (d + e))) + t == a + (b + (c + (d + (e + t))))
  {
  }

  lemma OrgShape(len: byte, oui: seq<byte>, subtype: byte, x: seq<byte>, t: seq<byte>)
    requires |oui| == 3
    ensures [0xfe, len, oui[0], oui[1], oui[2], subtype] + x + t == [0xfe, len] + (oui + ([subtype] + (x + t)))
  {
  }

  lemma FiveAreRead(d: seq<nat>, t: seq<byte>)
    requires |d| == 5 && forall i :: 0 <= i < 5 ==> d[i] < LONG
    ensures GetDelay(DelayWords(d) + t, 24) == Got(Delay([d[0], d[1], d[2], d[3], d[4]], true), t)
  {
    FiveWords(Put32(d[0]), Put32(d[1]), Put32(d[2]), Put32(d[3]), Put32(d[4]), t);
    DelayValueIsRead(d[0], d[1], d[2], d[3], d[4], t);
  }

  lemma DelayWordsAreRead(d: seq<nat>, info: PeerInfo, t: seq<byte>)
    requires |d| == 5 && forall i :: 0 <= i < 5 ==> d[i] < LONG
    ensures GetOrgValue(DelayWords(d) + t, OUI_PNIO, PNIO_DELAY, 24, info) == Got(info.(delay := Delay(d, true)), t)
  {
    FiveAreRead(d, t);
    assert d == [d[0], d[1], d[2], d[3], d[4]];
  }

  lemma OrgTlv(whole: seq<byte>, len: nat, oui: seq<byte>, subtype: byte, x: seq<byte>, info: PeerInfo, i: PeerInfo, t: seq<byte>)
    requires |oui| == 3 && KnownOrg(oui, subtype) && len <= 511
    requires whole == [0xfe + len / 256, len % 256] + (oui + ([subtype] + x))
    requires GetOrgValue(x, oui, subtype, len, info) == Got(i, t)
    ensures Tlv(whole, info) == Next(i, t)
  {
    OrgOctets(len, oui, subtype, x, info);
  }

  /** The measured delays are kept, each in its place. */
  lemma DelayIsRead(d: seq<nat>, info: PeerInfo, t: seq<byte>)
    requires |d| == 5 && forall i :: 0 <= i < 5 ==> d[i] < LONG
    ensures Tlv(DelayOctets(d) + t, info) == Next(info.(delay := Delay(d, true)), t)
  {
    OrgShape(24, OUI_PNIO, PNIO_DELAY, DelayWords(d), t);
    DelayWordsAreRead(d, info, t);
    OrgTlv(DelayOctets(d) + t, 24, OUI_PNIO, PNIO_DELAY, DelayWords(d) + t, info, info.(delay := Delay(d, true)), t);
  }

  /** So are the four octets of the port status, whatever they are. */
  lemma StatusIsRead(status: seq<byte>, info: PeerInfo, t: seq<byte>)
    requires |status| == 4
    ensures Tlv(StatusOctets(status) + t, info) == Next(info.(portStatus := status), t)
  {
    OrgShape(8, OUI_PNIO, PNIO_PORT_STATUS, status, t);
    OrgOctets(8, OUI_PNIO, PNIO_PORT_STATUS, status + t, info);
    PieceIsRead(status, t);
  }

  /** What a peer announces; the station's part is what this stack announces too. */
  datatype Peer = Peer(station: Station, ttl: nat, description: seq<byte>, delays: seq<nat>, status: seq<byte>)

  predicate PeerSized(p: Peer) {
    && Sized(p.station) && |p.station.port.text| <= 254 && p.ttl < WORD && |p.description| <= 59
    && |p.delays| == 5 && (forall i :: 0 <= i < 5 ==> p.delays[i] < LONG) && |p.status| == 4
  }

  function PeerTail(p: Peer): seq<byte>
    requires PeerSized(p)
  {
    DescriptionOctets(p.description) + (DelayOctets(p.delays) + (StatusOctets(p.status) + (MacOctets(p.station.mac) +
      (PhyOctets(p.station) + (ManagementOctets(p.station) + [0, 0])))))
  }

  function PeerOctets(p: Peer): seq<byte>
    requires PeerSized(p)
  {
    ChassisOctets(p.station.chassis) + (PortOctets(p.station.port) + (TtlOctets(p.ttl) + PeerTail(p)))
  }

  lemma TailIsRead(p: Peer, info: PeerInfo)
    requires PeerSized(p)
    ensures Parse(PeerTail(p), info) == Got(info.(
      description := Description(p.description, true, |p.description|), delay := Delay(p.delays, true), portStatus := p.status,
      mac := p.station.mac, phy := PhyOf(p.station), management := ManagementOf(p.station)), [])
  {
    var s := p.station;
    var t3 := MacOctets(s.mac) + (PhyOctets(s) + (ManagementOctets(s) + [0, 0]));
    var t2 := StatusOctets(p.status) + t3;
    var t1 := DelayOctets(p.delays) + t2;
    var i1 := info.(description := Description(p.description, true, |p.description|));
    var i2 := i1.(delay := Delay(p.delays, true));
    var i3 := i2.(portStatus := p.status);
    DescriptionIsRead(p.description, info, t1);
    ParseNext(DescriptionOctets(p.description), t1, info, i1);
    DelayIsRead(p.delays, i1, t2);
    ParseNext(DelayOctets(p.delays), t2, i1, i2);
    StatusIsRead(p.status, i2, t3);
    ParseNext(StatusOctets(p.status), t3, i2, i3);
    OthersPrinted(s);
    PhyPrinted(s);
    ManagementPrinted(s);
    TailRoundTrip(s, i3);
  }

  /** Every field of the record is what the peer wrote. */
  lemma PeerIsRead(p: Peer)
    requires PeerSized(p)
    ensures Parse(PeerOctets(p), NO_INFO) == Got(PeerInfo(
      Id(p.station.chassis.text, p.station.chassis.subtype, true, |p.station.chassis.text|),
      Id(p.station.port.text, p.station.port.subtype, true, |p.station.port.text|),
      p.ttl,
      Description(p.description, true, |p.description|),
      Management(p.station.ip, 1, 4, p.station.ifSubtype, p.station.ifValue, true),
      Delay(p.delays, true),
      p.status,
      p.station.mac,
      LinkStatus(p.station.supported, p.station.enabled, p.station.capabilities, p.station.mauType, true)), [])
  {
    var s := p.station;
    var t2 := TtlOctets(p.ttl) + PeerTail(p);
    var t1 := PortOctets(s.port) + t2;
    IdsPrinted(s);
    var i1 := NO_INFO.(chassis := Id(s.chassis.text, s.chassis.subtype, true, |s.chassis.text|));
    ChassisRoundTrip(s.chassis, NO_INFO, t1);
    ParseNext(ChassisOctets(s.chassis), t1, NO_INFO, i1);
    var i2 := i1.(port := Id(s.port.text, s.port.subtype, true, |s.port.text|));
    PortRoundTrip(s.port, i1, t2);
    ParseNext(PortOctets(s.port), t2, i1, i2);
    TtlIsRead(p.ttl, i2, PeerTail(p));
    ParseNext(TtlOctets(p.ttl), PeerTail(p), i2, i2.(ttl := p.ttl));
    TailIsRead(p, i2.(ttl := p.ttl));
  }
}
