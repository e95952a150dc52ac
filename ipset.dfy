/** The "add element to set" netlink message builder of src/ipset/mod.rs.

    The message is modelled as a structured value: the netlink header fields the code sets
    (section 2.2 of RFC 3549), the nfgenmsg header, and an ordered tree of attributes. The
    byte-level framing (lengths, padding) belongs to the crslmnl library and is not modelled;
    only the bytes this code fixes are: the protocol byte, the set name and its NUL, and the
    address octets. */
module Ipset {
  import opened Bytes
  import opened Errors
  import opened IpsetTypes

  type Ipv4Octets = s: seq<byte> | |s| == 4 witness [0, 0, 0, 0]
  type Ipv6Octets = s: seq<byte> | |s| == 16 witness [0, 0, 0, 0, 0, 0, 0, 0, 0, 0, 0, 0, 0, 0, 0, 0]

  /** `std::net::IpAddr`: the octets of an address, most significant first. */
  datatype IpAddr = V4(v4: Ipv4Octets) | V6(v6: Ipv6Octets) {
    function Octets(): (o: seq<byte>)
      ensures |o| == if V4? then 4 else 16
    {
      if V4? then v4 else v6
    }
  }

  /** Linux address family numbers (libc) and the nfnetlink version. */
  const AF_INET: byte := 2
  const AF_INET6: byte := 10
  const NFNETLINK_V0: byte := 0

  /** Constants that come from the netlink library, whose values are not part of this model. */
  datatype NetlinkLib = NetlinkLib(nfnlSubsysIpset: bv16, nlmFRequest: bv16, nlaFNetByteorder: bv16)

  datatype NlmsgHeader = NlmsgHeader(nlmsgType: bv16, nlmsgFlags: bv16)
  datatype NfgenHeader = NfgenHeader(nfgenFamily: byte, version: byte, resId: bv16)

  /** A netlink attribute: a type and either raw payload bytes or nested attributes. */
  datatype Attr = Attr(attrType: bv16, payload: Payload)
  datatype Payload = Raw(data: seq<byte>) | Nest(children: seq<Attr>)

  datatype NetlinkMessage = NetlinkMessage(header: NlmsgHeader, nfgen: NfgenHeader, attrs: seq<Attr>)

  /** A nest that was started and not yet ended, with the attributes put into it so far. */
  datatype OpenNest = OpenNest(attrType: bv16, children: seq<Attr>) {
    /** The attribute an ended nest becomes. */
    function Closed(): Attr {
      Attr(attrType, Nest(children))
    }
  }

  /** The open nests after `a` is put into the innermost one. */
  function PutInnermost(open: seq<OpenNest>, a: Attr): (r: seq<OpenNest>)
    requires open != []
    ensures |r| == |open| && r[..|open| - 1] == open[..|open| - 1]
    ensures r[|open| - 1] == OpenNest(open[|open| - 1].attrType, open[|open| - 1].children + [a])
  {
    var top := open[|open| - 1];
    open[..|open| - 1] + [OpenNest(top.attrType, top.children + [a])]
  }

  /** The nfgenmsg header placed after the netlink header (`put_sized_header`). */
  class Nfgenmsg {
    var nfgenFamily: byte
    var version: byte
    var resId: bv16

    constructor ()
      ensures nfgenFamily == 0 && version == 0 && resId == 0
    {
      nfgenFamily, version, resId := 0, 0, 0;
    }
  }

  /** A netlink message under construction in a zero-filled buffer (crslmnl's `Nlmsg`).
      `attrs` are the finished top-level attributes in order; `open` the nests started and
      not yet ended, outermost first. A new attribute goes into the innermost open nest, or
      at top level when none is open. */
  class Nlmsg {
    var nlmsgType: bv16
    var nlmsgFlags: bv16
    var sizedHeader: Nfgenmsg?
    var attrs: seq<Attr>
    var open: seq<OpenNest>

    /** `Nlmsg::new` on a zero-filled buffer. */
    constructor ()
      ensures nlmsgType == 0 && nlmsgFlags == 0 && sizedHeader == null && attrs == [] && open == []
    {
      nlmsgType, nlmsgFlags, sizedHeader, attrs, open := 0, 0, null, [], [];
    }

    /** The finished message, once the extra header is in place and every nest is ended. */
    function Message(): (m: NetlinkMessage)
      reads this, sizedHeader
      requires sizedHeader != null && open == []
      ensures m.attrs == attrs
    {
      NetlinkMessage(NlmsgHeader(nlmsgType, nlmsgFlags),
                     NfgenHeader(sizedHeader.nfgenFamily, sizedHeader.version, sizedHeader.resId),
                     attrs)
    }

    /** `put_sized_header::<Nfgenmsg>`: a zeroed extra header the caller then fills in. */
    method PutSizedHeader() returns (nfg: Nfgenmsg)
      modifies this
      ensures fresh(nfg) && sizedHeader == nfg
      ensures nfg.nfgenFamily == 0 && nfg.version == 0 && nfg.resId == 0
      ensures nlmsgType == old(nlmsgType) && nlmsgFlags == old(nlmsgFlags)
      ensures attrs == old(attrs) && open == old(open)
    {
      nfg := new Nfgenmsg();
      sizedHeader := nfg;
    }

    method PutAttr(a: Attr)
      modifies this
      ensures old(open) == [] ==> attrs == old(attrs) + [a] && open == []
      ensures old(open) != [] ==> attrs == old(attrs) && open == PutInnermost(old(open), a)
      ensures nlmsgType == old(nlmsgType) && nlmsgFlags == old(nlmsgFlags) && sizedHeader == old(sizedHeader)
    {
      if open == [] {
        attrs := attrs + [a];
      } else {
        open := PutInnermost(open, a);
      }
    }

    /** `put_u8`: a one-byte payload. */
    method PutU8(attrType: bv16, v: byte)
      modifies this
      ensures old(open) == [] ==> attrs == old(attrs) + [Attr(attrType, Raw([v]))] && open == []
      ensures old(open) != [] ==> attrs == old(attrs) && open == PutInnermost(old(open), Attr(attrType, Raw([v])))
      ensures nlmsgType == old(nlmsgType) && nlmsgFlags == old(nlmsgFlags) && sizedHeader == old(sizedHeader)
    {
      PutAttr(Attr(attrType, Raw([v])));
    }

    /** `put_strz`: the string's bytes followed by one NUL. */
    method PutStrz(attrType: bv16, s: Str)
      modifies this
      ensures old(open) == [] ==> attrs == old(attrs) + [Attr(attrType, Raw(s + [0]))] && open == []
      ensures old(open) != [] ==> attrs == old(attrs) && open == PutInnermost(old(open), Attr(attrType, Raw(s + [0])))
      ensures nlmsgType == old(nlmsgType) && nlmsgFlags == old(nlmsgFlags) && sizedHeader == old(sizedHeader)
    {
      PutAttr(Attr(attrType, Raw(s + [0])));
    }

    /** `put`: the in-memory bytes of a value. */
    method Put(attrType: bv16, data: seq<byte>)
      modifies this
      ensures old(open) == [] ==> attrs == old(attrs) + [Attr(attrType, Raw(data))] && open == []
      ensures old(open) != [] ==> attrs == old(attrs) && open == PutInnermost(old(open), Attr(attrType, Raw(data)))
      ensures nlmsgType == old(nlmsgType) && nlmsgFlags == old(nlmsgFlags) && sizedHeader == old(sizedHeader)
    {
      PutAttr(Attr(attrType, Raw(data)));
    }

    /** `nest_start`: opens a nest; the handle is its depth. */
    method NestStart(attrType: bv16) returns (nest: nat)
      modifies this
      ensures nest == |old(open)| && open == old(open) + [OpenNest(attrType, [])]
      ensures attrs == old(attrs)
      ensures nlmsgType == old(nlmsgType) && nlmsgFlags == old(nlmsgFlags) && sizedHeader == old(sizedHeader)
    {
      nest := |open|;
      open := open + [OpenNest(attrType, [])];
    }

    /** `nest_end`: ends the innermost open nest, which becomes an attribute of its parent.
        Nests are ended inner-first, so the attribute tree is well nested. */
    method NestEnd(nest: nat)
      requires nest + 1 == |open|
      modifies this
      ensures nest == 0 ==> attrs == old(attrs) + [old(open)[0].Closed()] && open == []
      ensures nest > 0 ==> attrs == old(attrs) && open == PutInnermost(old(open)[..nest], old(open)[nest].Closed())
      ensures nlmsgType == old(nlmsgType) && nlmsgFlags == old(nlmsgFlags) && sizedHeader == old(sizedHeader)
    {
      var top := open[nest];
      open := open[..nest];
      PutAttr(top.Closed());
    }
  }

  /** The address family byte of the `nfgenmsg` header. */
  function Family(ip: IpAddr): (f: byte)
    ensures f == AF_INET || f == AF_INET6
    ensures f == AF_INET <==> ip.V4?
  {
    if ip.V4? then AF_INET else AF_INET6
  }

  /** The netlink message type: the ipset command, with the subsystem id in the high byte. */
  function AddMessageType(lib: NetlinkLib): bv16 {
    IPSET_CMD_ADD | (lib.nfnlSubsysIpset << 8)
  }

  /** The address attribute type: the family's address id, flagged as being in network order. */
  function AddressAttrType(ip: IpAddr, lib: NetlinkLib): bv16 {
    (if ip.V4? then IPSET_ATTR_IPADDR_IPV4 else IPSET_ATTR_IPADDR_IPV6) | lib.nlaFNetByteorder
  }

  /** The message that adds `ip` to the set `setname`, as the ipset subsystem expects it. */
  function AddMessage(ip: IpAddr, setname: Str, lib: NetlinkLib): NetlinkMessage {
    NetlinkMessage(
      NlmsgHeader(AddMessageType(lib), lib.nlmFRequest),
      NfgenHeader(Family(ip), NFNETLINK_V0, 0),
      [ Attr(IPSET_ATTR_PROTOCOL, Raw([IPSET_PROTOCOL])),
        Attr(IPSET_ATTR_SETNAME, Raw(setname + [0])),
        AddressData(ip, lib)])
  }

  /** The DATA nest holding the IP nest holding the address attribute. */
  function AddressData(ip: IpAddr, lib: NetlinkLib): Attr {
    Attr(IPSET_ATTR_DATA, Nest([
      Attr(IPSET_ATTR_IP, Nest([
        Attr(AddressAttrType(ip, lib), Raw(ip.Octets()))]))]))
  }

  /** What the kernel channel does on each of its steps for one call. */
  datatype NetlinkSocket = NetlinkSocket(openOk: bool, bindOk: bool, sendOk: bool, closeOk: bool)

  /** The result `add_to_ipset` returns: the name guard first, then open and close failures;
      bind and send failures are only logged. */
  function PublishResult(setname: Str, sock: NetlinkSocket): Result<()> {
    if |setname| + 1 >= IPSET_MAXNAMELEN then Err(SetnameTooLong(setname))
    else if !sock.openOk then Err(Io(NetlinkOpen))
    else if !sock.closeOk then Err(Io(NetlinkClose))
    else Ok(())
  }

  /** The message `add_to_ipset` hands to the socket's send: built only once the name fits,
      and sent only once the socket opened and bound. */
  function SentMessage(ip: IpAddr, setname: Str, lib: NetlinkLib, sock: NetlinkSocket): Option<NetlinkMessage> {
    if |setname| + 1 < IPSET_MAXNAMELEN && sock.openOk && sock.bindOk
    then Some(AddMessage(ip, setname, lib)) else None
  }

  /** The nested part of `add_to_ipset`: DATA and IP nests started, the address put in network
      order, and the nests ended inner-first. */
  method PutAddressData(nlh: Nlmsg, ip: IpAddr, lib: NetlinkLib)
    requires nlh.open == []
    modifies nlh
    ensures nlh.attrs == old(nlh.attrs) + [AddressData(ip, lib)] && nlh.open == []
    ensures nlh.nlmsgType == old(nlh.nlmsgType) && nlh.nlmsgFlags == old(nlh.nlmsgFlags)
    ensures nlh.sizedHeader == old(nlh.sizedHeader)
  {
    var nestedFirst := nlh.NestStart(IPSET_ATTR_DATA);
    var nestedSecond := nlh.NestStart(IPSET_ATTR_IP);
    assert nlh.open == [OpenNest(IPSET_ATTR_DATA, []), OpenNest(IPSET_ATTR_IP, [])];

    var aType := AddressAttrType(ip, lib);

    match ip {
      case V4(ipv4) =>
        var v := BigEndianValue(ipv4);          // u32::from(ipv4)
        ToBeBytesOfValue(ipv4);
        assert ToBeBytes(v, |ipv4|) == ip.Octets();
        nlh.Put(aType, ToBeBytes(v, |ipv4|));        // &v.to_be()
      case V6(ipv6) =>
        var v := BigEndianValue(ipv6);          // u128::from(ipv6)
        ToBeBytesOfValue(ipv6);
        assert ToBeBytes(v, |ipv6|) == ip.Octets();
        nlh.Put(aType, ToBeBytes(v, |ipv6|));       // &v.to_be()
    }
    var address := Attr(AddressAttrType(ip, lib), Raw(ip.Octets()));
    assert |nlh.open| == 2;
    assert nlh.open[0] == OpenNest(IPSET_ATTR_DATA, []);
    assert nlh.open[1] == OpenNest(IPSET_ATTR_IP, [address]);
    assert nlh.open == [OpenNest(IPSET_ATTR_DATA, []), OpenNest(IPSET_ATTR_IP, [address])];

    ghost var ipNest := Attr(IPSET_ATTR_IP, Nest([address]));
    assert nlh.open[1].Closed() == ipNest;
    assert nlh.open[..1] == [OpenNest(IPSET_ATTR_DATA, [])];
    nlh.NestEnd(nestedSecond);
    assert [] + [ipNest] == [ipNest];
    assert nlh.open == [OpenNest(IPSET_ATTR_DATA, [Attr(IPSET_ATTR_IP, Nest([address]))])];
    nlh.NestEnd(nestedFirst);
    assert nlh.open == [];
    assert nlh.attrs == old(nlh.attrs) + [AddressData(ip, lib)];
  }


  /** `add_to_ipset`. `sent` is the message handed to the socket's send, if it was reached. */
  method AddToIpset(ip: IpAddr, setname: Str, lib: NetlinkLib, sock: NetlinkSocket)
    returns (r: Result<()>, sent: Option<NetlinkMessage>)
    ensures r == PublishResult(setname, sock)
    ensures sent == SentMessage(ip, setname, lib, sock)
  {
    if |setname| + 1 >= IPSET_MAXNAMELEN {
      return Err(SetnameTooLong(setname)), None;
    }

    var af := if ip.V4? then AF_INET else AF_INET6;

    var nlh := new Nlmsg();
    nlh.nlmsgType := AddMessageType(lib);
    nlh.nlmsgFlags := lib.nlmFRequest;

    var nfg := nlh.PutSizedHeader();
    nfg.nfgenFamily := af;
    nfg.version := NFNETLINK_V0;
    nfg.resId := 0; // 0u16.to_be() is 0 in either byte order

    nlh.PutU8(IPSET_ATTR_PROTOCOL, IPSET_PROTOCOL);
    nlh.PutStrz(IPSET_ATTR_SETNAME, setname);
    PutAddressData(nlh, ip, lib);
    assert nlh.attrs == AddMessage(ip, setname, lib).attrs;
    var msg := nlh.Message();


    if !sock.openOk {
      return Err(Io(NetlinkOpen)), None;
    }
    // A bind or send failure is logged, not returned.
    sent := if sock.bindOk then Some(msg) else None;
    r := if sock.closeOk then Ok(()) else Err(Io(NetlinkClose));
  }

  /** A name that does not leave room for its NUL within IPSET_MAXNAMELEN (31 bytes or more)
      is refused whatever the kernel channel would do; 30 bytes is the longest accepted. */
  lemma PublishRejectsLongName(setname: Str, sock: NetlinkSocket)
    ensures |setname| >= 31 ==> PublishResult(setname, sock) == Err(SetnameTooLong(setname))
    ensures |setname| <= 30 ==> PublishResult(setname, sock) != Err(SetnameTooLong(setname))
  {
  }

  /** Only the name guard, open and close decide the outcome: bind and send do not. */
  lemma PublishOutcome(setname: Str, sock: NetlinkSocket)
    ensures PublishResult(setname, sock).Ok? <==> |setname| <= 30 && sock.openOk && sock.closeOk
    ensures forall b, s :: PublishResult(setname, sock.(bindOk := b, sendOk := s)) == PublishResult(setname, sock)
  {
  }

  /** The header fields: the ADD command in the low byte of the type with the ipset subsystem
      in the high byte, the request flag alone, and the nfgenmsg family/version/res_id. */
  lemma AddMessageHeader(ip: IpAddr, setname: Str, lib: NetlinkLib)
    ensures AddMessage(ip, setname, lib).header.nlmsgType & 0xFF == IPSET_CMD_ADD
    ensures AddMessage(ip, setname, lib).header.nlmsgType >> 8 == lib.nfnlSubsysIpset & 0xFF
    ensures AddMessage(ip, setname, lib).header.nlmsgFlags == lib.nlmFRequest
    ensures AddMessage(ip, setname, lib).nfgen
            == NfgenHeader(if ip.V4? then AF_INET else AF_INET6, NFNETLINK_V0, 0)
  {
  }

  /** The attribute tree: PROTOCOL, then SETNAME holding the name and one NUL, then a DATA nest
      holding an IP nest holding the address attribute, whose payload is the address octets in
      network order (4 for IPv4, 16 for IPv6). */
  lemma AddMessageAttributes(ip: IpAddr, setname: Str, lib: NetlinkLib)
    ensures var a := AddMessage(ip, setname, lib).attrs;
      && |a| == 3
      && a[0] == Attr(IPSET_ATTR_PROTOCOL, Raw([6]))
      && a[1].attrType == IPSET_ATTR_SETNAME && a[1].payload == Raw(setname + [0])
      && a[2].attrType == IPSET_ATTR_DATA && a[2].payload.Nest? && |a[2].payload.children| == 1
      && var ipNest := a[2].payload.children[0];
         ipNest.attrType == IPSET_ATTR_IP && ipNest.payload.Nest? && |ipNest.payload.children| == 1
         && var addr := ipNest.payload.children[0];
            addr.attrType == AddressAttrType(ip, lib) && addr.payload.Raw?
            && |addr.payload.data| == (if ip.V4? then 4 else 16)
            && (ip.V4? ==> addr.payload.data == ip.v4)
            && (ip.V6? ==> addr.payload.data == ip.v6)
  {
  }

  /** With the network-byte-order flag outside the two low bits (it is bit 14 in Linux), the
      address attribute type carries the family: 1 for IPv4, 2 for IPv6, plus the flag. */
  lemma AddressAttrTypeFamily(ip: IpAddr, lib: NetlinkLib)
    requires lib.nlaFNetByteorder & 3 == 0
    ensures AddressAttrType(ip, lib) & 3 == if ip.V4? then IPSET_ATTR_IPADDR_IPV4 else IPSET_ATTR_IPADDR_IPV6
    ensures AddressAttrType(ip, lib) & lib.nlaFNetByteorder == lib.nlaFNetByteorder
    ensures forall other: IpAddr :: other.V4? != ip.V4? ==> AddressAttrType(other, lib) != AddressAttrType(ip, lib)
  {
  }

  /** The message reaches the kernel channel exactly when the name fits and the socket opened
      and bound; a successful call whose socket bound has sent it, while a message can be sent
      and the call still fail when closing the socket fails. */
  lemma SentMessageOutcome(ip: IpAddr, setname: Str, lib: NetlinkLib, sock: NetlinkSocket)
    ensures SentMessage(ip, setname, lib, sock).Some? <==> |setname| <= 30 && sock.openOk && sock.bindOk
    ensures SentMessage(ip, setname, lib, sock).Some? ==> SentMessage(ip, setname, lib, sock).value == AddMessage(ip, setname, lib)
    ensures PublishResult(setname, sock).Ok? && sock.bindOk ==> SentMessage(ip, setname, lib, sock).Some?
    ensures SentMessage(ip, setname, lib, sock).Some? && !sock.closeOk ==> PublishResult(setname, sock) == Err(Io(NetlinkClose))
  {
  }
}
