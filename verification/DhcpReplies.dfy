/** Server replies (dhcp/server.py, _build_response) on top of the two codecs. */
module DhcpReplies {
  import opened Bytes
  import opened DhcpOptions
  import opened DhcpPacket

  const OFFER: byte := 2
  const ACK: byte := 5
  const NAK: byte := 6

  /** The server's own configuration; a blank gateway or DNS server is `None`. */
  datatype Config = Config(serverIp: Address, subnetMask: Address, gateway: Option<Address>,
                           dnsServer: Option<Address>, leaseTime: int)

  /** Half of the lease time, but at least one second. */
  function RenewalTime(leaseTime: int): int {
    if leaseTime / 2 > 1 then leaseTime / 2 else 1
  }

  /** Seven eighths of the lease time rounded down, but at least one second. */
  function RebindingTime(leaseTime: int): int {
    if leaseTime * 7 / 8 > 1 then leaseTime * 7 / 8 else 1
  }

  function AddressField(code: byte, a: Address): Opt {
    RawOpt(code, PutU32(a))
  }

  predicate Packable(n: int) {
    0 <= n < 0x1_0000_0000
  }

  function LeaseOptions(leaseTime: int): seq<Opt>
    requires Packable(leaseTime)
  {
    [RawOpt(LEASE_TIME, PutU32(leaseTime)), RawOpt(RENEWAL_TIME, PutU32(RenewalTime(leaseTime))),
     RawOpt(REBINDING_TIME, PutU32(RebindingTime(leaseTime)))]
  }

  function FixedOptions(cfg: Config, kind: byte): seq<Opt> {
    [RawOpt(MESSAGE_TYPE, [kind]), AddressField(SERVER_IDENTIFIER, cfg.serverIp),
     AddressField(SUBNET_MASK, cfg.subnetMask)]
  }

  /** The option list of a reply, in the order in which it is built. */
  function ReplyOptions(cfg: Config, kind: byte, withLease: bool): seq<Opt>
    requires withLease ==> Packable(cfg.leaseTime)
  {
    FixedOptions(cfg, kind)
    + (if cfg.gateway.Some? then [AddressField(ROUTER, cfg.gateway.value)] else [])
    + (if cfg.dnsServer.Some? then [AddressField(DNS_SERVER, cfg.dnsServer.value)] else [])
    + (if withLease then LeaseOptions(cfg.leaseTime) else [])
  }

  function ReplyPacket(cfg: Config, request: Packet, kind: byte, yiaddr: Address, withLease: bool): (p: Packet)
    requires Valid(request) && (withLease ==> Packable(cfg.leaseTime))
    ensures Valid(p)
  {
    request.(op := 2, yiaddr := yiaddr, siaddr := cfg.serverIp,
             options := Encoded(ReplyOptions(cfg, kind, withLease)) + [END])
  }

  /** `None` when the lease time does not fit its 32-bit field and packing it fails. */
  function BuildResponse(cfg: Config, request: Packet, kind: byte, yiaddr: Address, withLease: bool): Option<seq<byte>>
    requires Valid(request)
  {
    if withLease && !Packable(cfg.leaseTime) then None
    else Some(ToBytes(ReplyPacket(cfg, request, kind, yiaddr, withLease)))
  }

  lemma {:induction false} ValueOfAdd(a: seq<Opt>, b: seq<Opt>, code: byte)
    ensures ValueOf(a + b, code) == if ValueOf(a, code).Some? then ValueOf(a, code) else ValueOf(b, code)
  {
    if a == [] {
      assert a + b == b;
    } else {
      ValueOfAdd(a[1..], b, code);
      assert (a + b)[1..] == a[1..] + b;
    }
  }

  function AddressBytes(a: Option<Address>): Option<seq<byte>> {
    if a.Some? then Some(PutU32(a.value)) else None
  }

  /** What a client finds in the option list: the message type first, the timers only with a lease. */
  lemma ReplyOptionValues(cfg: Config, kind: byte, withLease: bool)
    requires withLease ==> Packable(cfg.leaseTime)
    ensures var os := ReplyOptions(cfg, kind, withLease);
            && ValueOf(os, 53) == Some([kind])
            && ValueOf(os, 54) == Some(PutU32(cfg.serverIp))
            && ValueOf(os, 1) == Some(PutU32(cfg.subnetMask))
            && ValueOf(os, 3) == AddressBytes(cfg.gateway)
            && ValueOf(os, 6) == AddressBytes(cfg.dnsServer)
            && ValueOf(os, 51) == (if withLease then Some(PutU32(cfg.leaseTime)) else None)
            && ValueOf(os, 58) == (if withLease then Some(PutU32(RenewalTime(cfg.leaseTime))) else None)
            && ValueOf(os, 59) == (if withLease then Some(PutU32(RebindingTime(cfg.leaseTime))) else None)
  {
    hide RenewalTime, RebindingTime, PutU32;
    var fixed := FixedOptions(cfg, kind);
    var gateway := if cfg.gateway.Some? then [AddressField(ROUTER, cfg.gateway.value)] else [];
    var dns := if cfg.dnsServer.Some? then [AddressField(DNS_SERVER, cfg.dnsServer.value)] else [];
    var lease := if withLease then LeaseOptions(cfg.leaseTime) else [];
    forall code: byte
      ensures ValueOf(ReplyOptions(cfg, kind, withLease), code)
              == if ValueOf(fixed, code).Some? then ValueOf(fixed, code)
                 else if ValueOf(gateway, code).Some? then ValueOf(gateway, code)
                 else if ValueOf(dns, code).Some? then ValueOf(dns, code)
                 else ValueOf(lease, code)
    {
      ValueOfAdd(fixed + gateway + dns, lease, code);
      ValueOfAdd(fixed + gateway, dns, code);
      ValueOfAdd(fixed, gateway, code);
    }
    forall code: byte
      ensures ValueOf(fixed, code) == if code == MESSAGE_TYPE then Some([kind])
                                      else if code == SERVER_IDENTIFIER then Some(PutU32(cfg.serverIp))
                                      else if code == SUBNET_MASK then Some(PutU32(cfg.subnetMask)) else None
    {
      ValueOfThree(fixed[0], fixed[1], fixed[2], code);
    }
    assert forall code: byte ::
        ValueOf(gateway, code) == if code == ROUTER then AddressBytes(cfg.gateway) else None by {
      assert gateway == [] || gateway[1..] == [];
    }
    assert forall code: byte ::
        ValueOf(dns, code) == if code == DNS_SERVER then AddressBytes(cfg.dnsServer) else None by {
      assert dns == [] || dns[1..] == [];
    }
    forall code: byte | withLease
      ensures ValueOf(lease, code) == if code == LEASE_TIME then Some(lease[0].data)
                                      else if code == RENEWAL_TIME then Some(lease[1].data)
                                      else if code == REBINDING_TIME then Some(lease[2].data) else None
    {
      ValueOfThree(lease[0], lease[1], lease[2], code);
    }
  }

  lemma ValueOfThree(a: Opt, b: Opt, c: Opt, code: byte)
    ensures ValueOf([a, b, c], code)
            == if a.code == code then Some(a.data)
               else if b.code == code then Some(b.data)
               else if c.code == code then Some(c.data) else None
  {
    var os := [a, b, c];
    assert os[1..] == [b, c] && [b, c][1..] == [c] && [c][1..] == [];
    assert ValueOf([c], code) == if c.code == code then Some(c.data) else None;
    assert ValueOf([b, c], code) == if b.code == code then Some(b.data) else ValueOf([c], code);
  }

  /**
   Every reply parses back: op 2, the request's transaction, flags and hardware address, the
   offered address, and exactly the option list that was built.
   */
  lemma ReplyReadsBack(cfg: Config, request: Packet, kind: byte, yiaddr: Address, withLease: bool)
    requires Valid(request) && BuildResponse(cfg, request, kind, yiaddr, withLease).Some?
    ensures var d := BuildResponse(cfg, request, kind, yiaddr, withLease).value;
            && FromBytes(d).Ok?
            && var p := FromBytes(d).value;
            && p.op == 2 && p.yiaddr == yiaddr && p.siaddr == cfg.serverIp
            && p == request.(op := 2, yiaddr := yiaddr, siaddr := cfg.serverIp, options := p.options)
            && ParseFrom(p.options) == Ok(ReplyOptions(cfg, kind, withLease))
  {
    var p, os := ReplyPacket(cfg, request, kind, yiaddr, withLease), ReplyOptions(cfg, kind, withLease);
    ReadUndoesWrite(p);
    assert forall i :: 0 <= i < |os| ==> Proper(os[i]);
    ParseUndoesEncode(os, []);
    assert Encoded(os) + [END] + [] == p.options;
  }

  /** T1 < T2 < lease time (section 4.4.5 of RFC 2131) exactly when the lease lasts three seconds or more. */
  lemma TimersAreOrdered(leaseTime: int)
    ensures RenewalTime(leaseTime) < RebindingTime(leaseTime) < leaseTime <==> leaseTime >= 3
  {
    if leaseTime >= 8 {
      assert leaseTime * 7 / 8 >= leaseTime / 2 + 1;
    }
  }

  /** A reply cannot be built exactly when it carries a lease time that does not fit 32 bits. */
  lemma UnpackableExactly(cfg: Config, request: Packet, kind: byte, yiaddr: Address, withLease: bool)
    requires Valid(request)
    ensures BuildResponse(cfg, request, kind, yiaddr, withLease).None?
            <==> withLease && (cfg.leaseTime < 0 || cfg.leaseTime > 0xFFFF_FFFF)
  {
    hide ToBytes, ReplyPacket;
  }

  /** T1 is half of the lease time and T2 seven eighths of it, rounded down, but at least one second. */
  lemma TimersExactly(leaseTime: int)
    ensures leaseTime >= 2 ==> 2 * RenewalTime(leaseTime) <= leaseTime < 2 * RenewalTime(leaseTime) + 2
    ensures leaseTime >= 2 ==> 8 * RebindingTime(leaseTime) <= 7 * leaseTime < 8 * RebindingTime(leaseTime) + 8
    ensures leaseTime < 2 ==> RenewalTime(leaseTime) == 1 == RebindingTime(leaseTime)
  {
  }

  /** A number in four octets, the highest first. */
  lemma FourOctets(n: int)
    requires Packable(n)
    ensures |PutU32(n)| == 4
    ensures var d := PutU32(n); n == InOrder(d[0], d[1], d[2], d[3])
  {
  }

  /** The reply grants `a`: it carries a lease time (option 51) and names `a` as the client's address. */
  ghost predicate Grants(d: seq<byte>, a: Address) {
    && FromBytes(d).Ok? && FromBytes(d).value.yiaddr == a
    && ParseFrom(FromBytes(d).value.options).Ok?
    && ValueOf(ParseFrom(FromBytes(d).value.options).value, 51).Some?
  }

  lemma GrantsExactly(cfg: Config, request: Packet, kind: byte, yiaddr: Address, withLease: bool, a: Address)
    requires Valid(request) && BuildResponse(cfg, request, kind, yiaddr, withLease).Some?
    ensures Grants(BuildResponse(cfg, request, kind, yiaddr, withLease).value, a) <==> withLease && a == yiaddr
  {
    ReplyReadsBack(cfg, request, kind, yiaddr, withLease);
    ReplyOptionValues(cfg, kind, withLease);
  }
}
