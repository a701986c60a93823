/**
 LLDP frames in src/common/pf_lldp.c, section 9.5 of IEEE 802.1AB-2005: what the printer writes and what
 the parser makes of a sequence of octets. Here both are functions; LldpFrames has the loops that work
 on a buffer and a position, proved against these.

 The parser reads from the front of the octets that are left. A read past the end fails, and so does a
 skip past the end, because the only thing that follows a skip is the read of the next TLV header.
 */
module Lldp {
  import opened Bytes

  datatype Read<+T> = Fail | Got(value: T, rest: seq<byte>) {
    predicate IsFailure() { Fail? }
    function PropagateFailure<U>(): Read<U> requires Fail? { Fail }
    function Extract(): (T, seq<byte>) requires Got? { (value, rest) }
  }

  /** The result of a read of x would be the same with more octets behind it. */
  ghost predicate Extends<T>(x: Read<T>, y: Read<T>, tail: seq<byte>) {
    x.Got? ==> y == Got(x.value, x.rest + tail)
  }

  function Byte(r: seq<byte>): Read<byte> {
    if r == [] then Fail else Got(r[0], r[1..])
  }

  function Mem(r: seq<byte>, n: nat): Read<seq<byte>> {
    if n > |r| then Fail else Got(r[..n], r[n..])
  }

  function Skip(r: seq<byte>, n: nat): Read<()> {
    if n > |r| then Fail else Got((), r[n..])
  }

  function Half(r: seq<byte>): Read<nat> {
    if |r| < 2 then Fail else Got(Get16(r, 0), r[2..])
  }

  function Word(r: seq<byte>): Read<nat> {
    if |r| < 4 then Fail else Got(Get32(r, 0), r[4..])
  }

  // TLV types and subtypes
  const END: nat := 0
  const CHASSIS_ID: nat := 1
  const PORT_ID: nat := 2
  const TTL: nat := 3
  const PORT_DESCRIPTION: nat := 4
  const MANAGEMENT_ADDRESS: nat := 8
  const ORG_SPEC: nat := 127
  const OUI_PNIO: seq<byte> := [0x00, 0x0e, 0xcf]
  const OUI_IEEE: seq<byte> := [0x00, 0x12, 0x0f]
  const PNIO_DELAY: byte := 1
  const PNIO_PORT_STATUS: byte := 2
  const PNIO_CHASSIS_MAC: byte := 5
  const IEEE_MAC_PHY: byte := 1

  // Sizes of the strings, without termination
  const MAX_CHASSIS: nat := 240
  const MAX_PORT: nat := 255
  const MAX_DESCRIPTION: nat := 59

  const TTL_SECONDS: nat := 20

  /** Chassis ID and port ID. */
  datatype Id = Id(text: seq<byte>, subtype: byte, valid: bool, len: nat)

  datatype Description = Description(text: seq<byte>, valid: bool, len: nat)

  datatype Management = Management(value: seq<byte>, subtype: byte, len: nat, ifSubtype: byte, ifValue: nat, valid: bool)

  datatype Delay = Delay(values: seq<nat>, valid: bool)

  datatype LinkStatus = LinkStatus(supported: bool, enabled: bool, capabilities: nat, mauType: nat, valid: bool)

  /** pf_lldp_peer_info_t */
  datatype PeerInfo = PeerInfo(chassis: Id, port: Id, ttl: nat, description: Description, management: Management,
                               delay: Delay, portStatus: seq<byte>, mac: seq<byte>, phy: LinkStatus)

  const NO_ID := Id([], 0, false, 0)
  const NO_INFO := PeerInfo(NO_ID, NO_ID, 0, Description([], false, 0), Management([], 0, 0, 0, 0, false),
                            Delay([0, 0, 0, 0, 0], false), [0, 0, 0, 0], [0, 0, 0, 0, 0, 0],
                            LinkStatus(false, false, 0, 0, false))

  // ---------------------------------------------------------------------------------------------
  // Parser: the value of one TLV; len is the length in its header

  /** pf_lldp_get_chassis_id_from_packet and pf_lldp_get_port_id_from_packet */
  function GetId(r: seq<byte>, len: nat, max: nat, old_: Id): Read<Id> {
    if len == 0 then Got(old_, r)
    else if len - 1 > max then
      var (_, r) :- Skip(r, len);
      Got(old_.(len := len - 1), r)
    else
      var (subtype, r) :- Byte(r);
      var (text, r) :- Mem(r, len - 1);
      Got(Id(text, subtype, true, len - 1), r)
  }

  function GetTtl(r: seq<byte>, len: nat): Read<nat> {
    if len != 2 then Fail else Half(r)
  }

  function GetDescription(r: seq<byte>, len: nat, old_: Description): Read<Description> {
    if len > MAX_DESCRIPTION then
      var (_, r) :- Skip(r, len);
      Got(old_, r)
    else
      var (text, r) :- Mem(r, len);
      Got(Description(text, true, len), r)
  }

  /** The interface number of a management address; the object identifier behind it is skipped. */
  function GetInterface(r: seq<byte>): Read<(byte, nat)> {
    var (subtype, r) :- Byte(r);
    var (value, r) :- Word(r);
    var (oidLen, r) :- Byte(r);
    var (_, r) :- Skip(r, oidLen);
    Got((subtype, value), r)
  }

  /** A management address of n - 1 octets; only an IPv4 address is kept. */
  function GetAddress(r: seq<byte>, n: nat, old_: Management): Read<Management>
    requires n > 0
  {
    var (subtype, r) :- Byte(r);
    var (value, r) :- Mem(r, n - 1);
    var (number, r) :- GetInterface(r);
    Got(if subtype == 1 && n == 5 then Management(value, subtype, n - 1, number.0, number.1, true) else old_, r)
  }

  /** An address of unusable length is skipped; otherwise the lengths inside the TLV decide where it ends. */
  function GetManagement(r0: seq<byte>, len: nat, old_: Management): Read<Management> {
    var (n, r) :- Byte(r0);
    if 2 <= n <= 32 then GetAddress(r, n, old_)
    else if len == 0 then Got(old_, r0)
    else
      var (_, r) :- Skip(r, len - 1);
      Got(old_, r)
  }

  function GetDelay(r: seq<byte>, len: nat): Read<Delay> {
    if len != 24 then Fail
    else
      var (a, r) :- Word(r);
      var (b, r) :- Word(r);
      var (c, r) :- Word(r);
      var (d, r) :- Word(r);
      var (e, r) :- Word(r);
      Got(Delay([a, b, c, d, e], true), r)
  }

  function GetLinkStatus(r: seq<byte>, len: nat): Read<LinkStatus> {
    if len != 9 then Fail
    else
      var (s, r) :- Byte(r);
      var (capabilities, r) :- Half(r);
      var (mauType, r) :- Half(r);
      Got(LinkStatus(s % 2 == 1, (s / 2) % 2 == 1, capabilities, mauType, true), r)
  }

  predicate KnownOrg(oui: seq<byte>, subtype: byte) {
    (oui == OUI_PNIO && (subtype == PNIO_DELAY || subtype == PNIO_PORT_STATUS || subtype == PNIO_CHASSIS_MAC))
    || (oui == OUI_IEEE && subtype == IEEE_MAC_PHY)
  }

  function GetOrgValue(r: seq<byte>, oui: seq<byte>, subtype: byte, len: nat, info: PeerInfo): Read<PeerInfo>
    requires KnownOrg(oui, subtype)
  {
    if oui == OUI_IEEE then
      var (phy, r) :- GetLinkStatus(r, len);
      Got(info.(phy := phy), r)
    else if subtype == PNIO_DELAY then
      var (delay, r) :- GetDelay(r, len);
      Got(info.(delay := delay), r)
    else if subtype == PNIO_PORT_STATUS then
      if len != 8 then Fail
      else
        var (status, r) :- Mem(r, 4);
        Got(info.(portStatus := status), r)
    else
      if len != 10 then Fail
      else
        var (mac, r) :- Mem(r, 6);
        Got(info.(mac := mac), r)
  }

  /** An organizationally specific TLV; one that is not known is skipped, however short it claims to be. */
  function GetOrgSpecific(r0: seq<byte>, len: nat, info: PeerInfo): Read<PeerInfo> {
    var (oui, r) :- Mem(r0, 3);
    var (subtype, r) :- Byte(r);
    if KnownOrg(oui, subtype) then GetOrgValue(r, oui, subtype, len, info)
    else
      var (_, r) :- Skip(r0, len);
      Got(info, r)
  }

  function GetValue(r: seq<byte>, typ: nat, len: nat, info: PeerInfo): Read<PeerInfo> {
    if typ == CHASSIS_ID then
      var (id, r) :- GetId(r, len, MAX_CHASSIS, info.chassis);
      Got(info.(chassis := id), r)
    else if typ == PORT_ID then
      var (id, r) :- GetId(r, len, MAX_PORT, info.port);
      Got(info.(port := id), r)
    else if typ == TTL then
      var (ttl, r) :- GetTtl(r, len);
      Got(info.(ttl := ttl), r)
    else if typ == PORT_DESCRIPTION then
      var (d, r) :- GetDescription(r, len, info.description);
      Got(info.(description := d), r)
    else if typ == MANAGEMENT_ADDRESS then
      var (m, r) :- GetManagement(r, len, info.management);
      Got(info.(management := m), r)
    else if typ == ORG_SPEC then
      GetOrgSpecific(r, len, info)
    else
      var (_, r) :- Skip(r, len);
      Got(info, r)
  }

  datatype Outcome = Failed | Finished | Next(info: PeerInfo, rest: seq<byte>)

  /** One round of the parser's loop. */
  function Tlv(r: seq<byte>, info: PeerInfo): Outcome {
    match Half(r)
    case Fail => Failed
    case Got(head, r) =>
      if head / 512 == END then Finished
      else
        match GetValue(r, head / 512, head % 512, info)
        case Fail => Failed
        case Got(info, r) => Next(info, r)
  }

  // ---------------------------------------------------------------------------------------------
  // A value that was read does not depend on the octets behind it

  lemma MemExtends(r: seq<byte>, n: nat, t: seq<byte>)
    ensures Extends(Mem(r, n), Mem(r + t, n), t)
    ensures Extends(Skip(r, n), Skip(r + t, n), t)
  {
    if n <= |r| {
      assert (r + t)[..n] == r[..n];
      assert (r + t)[n..] == r[n..] + t;
    }
  }

  lemma WordExtends(r: seq<byte>, t: seq<byte>)
    ensures Extends(Byte(r), Byte(r + t), t)
    ensures Extends(Half(r), Half(r + t), t)
    ensures Extends(Word(r), Word(r + t), t)
  {
    MemExtends(r, 1, t);
    MemExtends(r, 2, t);
    MemExtends(r, 4, t);
  }

  lemma PrimitivesExtend(t: seq<byte>)
    ensures forall r: seq<byte> {:trigger Byte(r + t)} :: Extends(Byte(r), Byte(r + t), t)
    ensures forall r: seq<byte> {:trigger Half(r + t)} :: Extends(Half(r), Half(r + t), t)
    ensures forall r: seq<byte> {:trigger Word(r + t)} :: Extends(Word(r), Word(r + t), t)
    ensures forall r: seq<byte>, n: nat {:trigger Mem(r + t, n)} :: Extends(Mem(r, n), Mem(r + t, n), t)
    ensures forall r: seq<byte>, n: nat {:trigger Skip(r + t, n)} :: Extends(Skip(r, n), Skip(r + t, n), t)
  {
    forall r: seq<byte>
      ensures Extends(Byte(r), Byte(r + t), t) && Extends(Half(r), Half(r + t), t) && Extends(Word(r), Word(r + t), t)
    {
      WordExtends(r, t);
    }
    forall r: seq<byte>, n: nat
      ensures Extends(Mem(r, n), Mem(r + t, n), t) && Extends(Skip(r, n), Skip(r + t, n), t)
    {
      MemExtends(r, n, t);
    }
  }

  lemma InterfaceExtends(r: seq<byte>, t: seq<byte>)
    ensures Extends(GetInterface(r), GetInterface(r + t), t)
  {
    PrimitivesExtend(t);
  }

  lemma AddressExtends(r: seq<byte>, n: nat, old_: Management, t: seq<byte>)
    requires n > 0
    ensures Extends(GetAddress(r, n, old_), GetAddress(r + t, n, old_), t)
  {
    PrimitivesExtend(t);
    var subtype := Byte(r);
    if subtype.Got? && Mem(subtype.rest, n - 1).Got? {
      InterfaceExtends(Mem(subtype.rest, n - 1).rest, t);
    }
  }

  lemma ManagementExtends(r: seq<byte>, len: nat, old_: Management, t: seq<byte>)
    ensures Extends(GetManagement(r, len, old_), GetManagement(r + t, len, old_), t)
  {
    PrimitivesExtend(t);
    var n := Byte(r);
    if n.Got? && 2 <= n.value <= 32 {
      AddressExtends(n.rest, n.value, old_, t);
    }
  }

  lemma DelayExtends(r: seq<byte>, len: nat, t: seq<byte>)
    ensures Extends(GetDelay(r, len), GetDelay(r + t, len), t)
  {
    PrimitivesExtend(t);
  }

  lemma OrgValueExtends(r: seq<byte>, oui: seq<byte>, subtype: byte, len: nat, info: PeerInfo, t: seq<byte>)
    requires KnownOrg(oui, subtype)
    ensures Extends(GetOrgValue(r, oui, subtype, len, info), GetOrgValue(r + t, oui, subtype, len, info), t)
  {
    DelayExtends(r, len, t);
    PrimitivesExtend(t);
  }

  lemma OrgSpecificExtends(r: seq<byte>, len: nat, info: PeerInfo, t: seq<byte>)
    ensures Extends(GetOrgSpecific(r, len, info), GetOrgSpecific(r + t, len, info), t)
  {
    PrimitivesExtend(t);
    var oui := Mem(r, 3);
    if oui.Got? && Byte(oui.rest).Got? && KnownOrg(oui.value, Byte(oui.rest).value) {
      OrgValueExtends(Byte(oui.rest).rest, oui.value, Byte(oui.rest).value, len, info, t);
    }
  }

  lemma IdExtends(r: seq<byte>, len: nat, max: nat, old_: Id, t: seq<byte>)
    ensures Extends(GetId(r, len, max, old_), GetId(r + t, len, max, old_), t)
  {
    PrimitivesExtend(t);
  }

  lemma ValueExtends(r: seq<byte>, typ: nat, len: nat, info: PeerInfo, t: seq<byte>)
    ensures Extends(GetValue(r, typ, len, info), GetValue(r + t, typ, len, info), t)
  {
    if typ == CHASSIS_ID {
      IdExtends(r, len, MAX_CHASSIS, info.chassis, t);
    } else if typ == PORT_ID {
      IdExtends(r, len, MAX_PORT, info.port, t);
    } else if typ == MANAGEMENT_ADDRESS {
      ManagementExtends(r, len, info.management, t);
    } else if typ == ORG_SPEC {
      OrgSpecificExtends(r, len, info, t);
    } else {
      PrimitivesExtend(t);
    }
  }

  lemma TlvExtends(r: seq<byte>, info: PeerInfo, t: seq<byte>)
    requires !Tlv(r, info).Failed?
    ensures Tlv(r + t, info) == match Tlv(r, info) case Next(i, rest) => Next(i, rest + t) case x => x
  {
    PrimitivesExtend(t);
    var head := Half(r);
    ValueExtends(head.rest, head.value / 512, head.value % 512, info, t);
  }

  lemma ManagementTakes(r: seq<byte>, len: nat, old_: Management)
    ensures GetManagement(r, len, old_).Got? ==> |GetManagement(r, len, old_).rest| <= |r|
  {
  }

  lemma OrgSpecificTakes(r: seq<byte>, len: nat, info: PeerInfo)
    ensures GetOrgSpecific(r, len, info).Got? ==> |GetOrgSpecific(r, len, info).rest| <= |r|
  {
  }

  /** No value ends before it begins, even where the parser moves backwards. */
  lemma ValueTakes(r: seq<byte>, typ: nat, len: nat, info: PeerInfo)
    ensures GetValue(r, typ, len, info).Got? ==> |GetValue(r, typ, len, info).rest| <= |r|
  {
    if typ == MANAGEMENT_ADDRESS {
      ManagementTakes(r, len, info.management);
    } else if typ == ORG_SPEC {
      OrgSpecificTakes(r, len, info);
    }
  }

  /** Every round takes at least the header. */
  lemma TlvTakesHeader(r: seq<byte>, info: PeerInfo)
    ensures Tlv(r, info).Next? ==> |Tlv(r, info).rest| + 2 <= |r|
  {
    var head := Half(r);
    if head.Got? {
      ValueTakes(head.rest, head.value / 512, head.value % 512, info);
    }
  }

  /** pf_lldp_parse_packet: the information of a packet, or Fail. */
  function Parse(r: seq<byte>, info: PeerInfo): Read<PeerInfo>
    decreases |r|
  {
    match Tlv(r, info)
    case Failed => Fail
    case Finished => Got(info, [])
    case Next(info', r') => TlvTakesHeader(r, info); Parse(r', info')
  }
}
