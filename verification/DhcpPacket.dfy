/** The fixed BOOTP/DHCP header (dhcp/packet.py), section 2 of RFC 2131. */
module DhcpPacket {
  import opened Bytes

  const HEADER_SIZE := 236
  const MIN_PACKET_SIZE := 240
  const MAGIC_COOKIE: seq<byte> := [0x63, 0x82, 0x53, 0x63]

  datatype PacketError = TooShort | BadCookie

  /** Addresses are 32-bit numbers; the dotted notation is a rendering of them. */
  datatype Packet = Packet(op: byte, htype: byte, hlen: byte, hops: byte, xid: int, secs: int, flags: int,
                           ciaddr: int, yiaddr: int, siaddr: int, giaddr: int,
                           chaddr: seq<byte>, sname: seq<byte>, file: seq<byte>, options: seq<byte>)

  predicate Word(n: int) { 0 <= n < 0x1_0000 }
  predicate Long(n: int) { 0 <= n < 0x1_0000_0000 }

  /** The checks made on construction. */
  predicate Valid(p: Packet) {
    && Long(p.xid) && Word(p.secs) && Word(p.flags)
    && Long(p.ciaddr) && Long(p.yiaddr) && Long(p.siaddr) && Long(p.giaddr)
    && |p.chaddr| == 16 && |p.sname| == 64 && |p.file| == 128
  }

  /** The numeric fields: the first 28 octets. */
  function Numbers(p: Packet): (r: seq<byte>)
    requires Valid(p)
    ensures |r| == 28
  {
    [p.op, p.htype, p.hlen, p.hops] + PutU32(p.xid) + PutU16(p.secs) + PutU16(p.flags)
    + PutU32(p.ciaddr) + PutU32(p.yiaddr) + PutU32(p.siaddr) + PutU32(p.giaddr)
  }

  function Long4(d: seq<byte>, i: nat): (n: int)
    requires i + 4 <= |d|
    ensures Long(n)
  {
    U32(d[i], d[i + 1], d[i + 2], d[i + 3])
  }

  function FromBytes(d: seq<byte>): (r: Result<Packet, PacketError>)
    ensures r.Ok? ==> Valid(r.value)
    ensures r.Ok? <==> |d| >= MIN_PACKET_SIZE && d[236..240] == MAGIC_COOKIE
  {
    if |d| < MIN_PACKET_SIZE then Err(TooShort)
    else if d[236..240] != MAGIC_COOKIE then Err(BadCookie)
    else Ok(Packet(d[0], d[1], d[2], d[3], Long4(d, 4), U16(d[8], d[9]), U16(d[10], d[11]),
                   Long4(d, 12), Long4(d, 16), Long4(d, 20), Long4(d, 24),
                   d[28..44], d[44..108], d[108..236], d[240..]))
  }

  function ToBytes(p: Packet): seq<byte>
    requires Valid(p)
  {
    Numbers(p) + (p.chaddr + (p.sname + (p.file + (MAGIC_COOKIE + p.options))))
  }

  lemma NumbersRead(p: Packet)
    requires Valid(p)
    ensures var d := Numbers(p);
            && d[0] == p.op && d[1] == p.htype && d[2] == p.hlen && d[3] == p.hops
            && Long4(d, 4) == p.xid && U16(d[8], d[9]) == p.secs && U16(d[10], d[11]) == p.flags
            && Long4(d, 12) == p.ciaddr && Long4(d, 16) == p.yiaddr
            && Long4(d, 20) == p.siaddr && Long4(d, 24) == p.giaddr
  {
  }

  /** Reading a written packet gives the packet back. */
  lemma ReadUndoesWrite(p: Packet)
    requires Valid(p)
    ensures FromBytes(ToBytes(p)) == Ok(p)
  {
    var d := ToBytes(p);
    var rest4 := MAGIC_COOKIE + p.options;
    var rest3 := p.file + rest4;
    var rest2 := p.sname + rest3;
    var rest1 := p.chaddr + rest2;
    NumbersRead(p);
    assert forall i :: 0 <= i < 28 ==> d[i] == Numbers(p)[i];
    assert d[28..] == rest1;
    assert d[44..] == rest1[16..] == rest2;
    assert d[108..] == rest2[64..] == rest3;
    assert d[236..] == rest3[128..] == rest4;
    assert d[28..44] == rest1[..16] == p.chaddr;
    assert d[44..108] == rest2[..64] == p.sname;
    assert d[108..236] == rest3[..128] == p.file;
    assert d[236..240] == rest4[..4] == MAGIC_COOKIE;
    assert d[240..] == rest4[4..] == p.options;
  }

  /** The numeric fields of a packet that was read are its first 28 octets. */
  lemma NumbersWritten(d: seq<byte>)
    requires FromBytes(d).Ok?
    ensures Numbers(FromBytes(d).value) == d[..28]
  {
    var p := FromBytes(d).value;
    LongWritten(d, 4);
    WordWritten(d, 8);
    WordWritten(d, 10);
    LongWritten(d, 12);
    LongWritten(d, 16);
    LongWritten(d, 20);
    LongWritten(d, 24);
    hide PutU16, PutU32, Long4, U16;
    assert d[..28] == d[..4] + d[4..8] + d[8..10] + d[10..12] + d[12..16] + d[16..20] + d[20..24] + d[24..28];
    assert d[..4] == [p.op, p.htype, p.hlen, p.hops];
  }

  lemma LongWritten(d: seq<byte>, i: nat)
    requires i + 4 <= |d|
    ensures PutU32(Long4(d, i)) == d[i..i + 4]
  {
    U32Injective(d[i], d[i + 1], d[i + 2], d[i + 3]);
  }

  lemma WordWritten(d: seq<byte>, i: nat)
    requires i + 2 <= |d|
    ensures PutU16(U16(d[i], d[i + 1])) == d[i..i + 2]
  {
    U16Injective(d[i], d[i + 1]);
  }

  lemma PartsJoin(d: seq<byte>)
    requires |d| >= MIN_PACKET_SIZE
    ensures d == d[..28] + (d[28..44] + (d[44..108] + (d[108..236] + (d[236..240] + d[240..]))))
  {
    assert d[236..240] + d[240..] == d[236..];
    assert d[108..236] + d[236..] == d[108..];
    assert d[44..108] + d[108..] == d[44..];
    assert d[28..44] + d[44..] == d[28..];
    assert d[..28] + d[28..] == d;
  }

  /** Writing a packet that was read gives the very octets back. */
  lemma WriteUndoesRead(d: seq<byte>)
    requires FromBytes(d).Ok?
    ensures ToBytes(FromBytes(d).value) == d
  {
    NumbersWritten(d);
    var p := FromBytes(d).value;
    assert p.chaddr == d[28..44] && p.sname == d[44..108] && p.file == d[108..236];
    assert d[236..240] == MAGIC_COOKIE && p.options == d[240..];
    hide Numbers, FromBytes, Long4, U16;
    PartsJoin(d);
  }

  /** A datagram is accepted when it has 240 octets, the last four of which are the magic cookie. */
  lemma AcceptedExactly(d: seq<byte>)
    ensures FromBytes(d).Ok? <==> |d| >= 240 && d[236] == 0x63 && d[237] == 0x82 && d[238] == 0x53 && d[239] == 0x63
  {
    if |d| >= 240 {
      var c := d[236..240];
      assert c[0] == d[236] && c[1] == d[237] && c[2] == d[238] && c[3] == d[239];
      assert c == [0x63, 0x82, 0x53, 0x63] <==> c[0] == 0x63 && c[1] == 0x82 && c[2] == 0x53 && c[3] == 0x63;
    }
  }

  /**
   The fields of a datagram by position (section 2 of RFC 2131), numbers being in network order.
   */
  lemma FieldsByPosition(d: seq<byte>)
    requires FromBytes(d).Ok?
    ensures var p := FromBytes(d).value;
            && p.op == d[0] && p.htype == d[1] && p.hlen == d[2] && p.hops == d[3]
            && p.xid == InOrder(d[4], d[5], d[6], d[7])
            && p.secs == InOrder(0, 0, d[8], d[9]) && p.flags == InOrder(0, 0, d[10], d[11])
            && p.ciaddr == InOrder(d[12], d[13], d[14], d[15])
            && p.yiaddr == InOrder(d[16], d[17], d[18], d[19])
            && p.siaddr == InOrder(d[20], d[21], d[22], d[23])
            && p.giaddr == InOrder(d[24], d[25], d[26], d[27])
            && p.chaddr == d[28..44] && p.sname == d[44..108] && p.file == d[108..236] && p.options == d[240..]
  {
  }

  /** The hardware address that `hlen` selects; slicing stops at the 16 octets there are. */
  function HardwareAddress(p: Packet): seq<byte>
    requires Valid(p)
  {
    p.chaddr[..if p.hlen <= 16 then p.hlen else 16]
  }
}
