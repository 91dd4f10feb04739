/**
 The message machine from datagram to datagram, by the option and message numbers of RFC 2132:
 which message a datagram is, which reply it can have, and what it can change.
 */
module DhcpDatagrams {
  import opened Bytes
  import opened ClientIds
  import opened DhcpOptions
  import opened DhcpPacket
  import opened DhcpProtocol
  import opened DhcpReplies
  import opened DhcpSafety
  import opened LeaseBook
  import opened DhcpStorage

  // ----- reading a datagram -----

  function OptionsOf(data: seq<byte>): Option<seq<Opt>> {
    var p := FromBytes(data);
    if p.Err? || ParseFrom(p.value.options).Err? then None else Some(ParseFrom(p.value.options).value)
  }

  /** The option is there and cannot hold an address. */
  predicate BadAddressIn(os: seq<Opt>, code: byte) {
    ValueOf(os, code).Some? && |ValueOf(os, code).value| != 4
  }

  /** The address in the option, its four octets in network order. */
  function AddressIn(os: seq<Opt>, code: byte): Option<int>
    requires !BadAddressIn(os, code)
  {
    var v := ValueOf(os, code);
    if v.None? then None else Some(InOrder(v.value[0], v.value[1], v.value[2], v.value[3]))
  }

  /**
   Option 53 decides what message it is.  The address asked for is in option 50 and the server
   meant in option 54.
   */
  lemma MessageByNumber(p: Packet, os: seq<Opt>)
    requires Valid(p)
    ensures var m, kind, c := Classify(p, os), ValueOf(os, 53), ClientId(p, os);
            if kind.None? then m == Ignored
            else if |kind.value| != 1 then m == Malformed(BadMessageType)
            else if kind.value[0] == 1 then
              if BadAddressIn(os, 50) then m == Malformed(BadAddress) else m == Discover(c, AddressIn(os, 50))
            else if kind.value[0] == 3 then
              if BadAddressIn(os, 50) || BadAddressIn(os, 54) then m == Malformed(BadAddress)
              else m == Request(c, AddressIn(os, 50), AddressIn(os, 54))
            else if kind.value[0] == 4 then
              if BadAddressIn(os, 50) then m == Malformed(BadAddress) else m == Decline(c, AddressIn(os, 50))
            else if kind.value[0] == 7 then m == Release(c)
            else if kind.value[0] == 8 then m == Inform
            else m == Ignored
  {
    AddressInOrder(os, 50);
    AddressInOrder(os, 54);
    hide ValueOf, AddressOption, ClientId, InOrder;
  }

  lemma ReadByNumber(data: seq<byte>)
    ensures Read(data).None? <==> OptionsOf(data).None?
    ensures Read(data).Some? ==>
      && FromBytes(data).Ok? && Read(data).value.0 == FromBytes(data).value
      && Read(data).value.1 == Classify(FromBytes(data).value, OptionsOf(data).value)
  {
    hide FromBytes, ParseFrom, Classify;
  }

  /** The datagram is readable and its option 53 is the single octet `kind`. */
  predicate IsType(data: seq<byte>, kind: byte) {
    OptionsOf(data).Some? && ValueOf(OptionsOf(data).value, 53) == Some([kind])
  }

  /** The client that the datagram speaks for. */
  function ClientOf(data: seq<byte>): string
    requires OptionsOf(data).Some?
  {
    ClientId(FromBytes(data).value, OptionsOf(data).value)
  }

  // ----- replies -----

  /** Which verdict a message can have: offers for discovers, refusals for requests, acknowledgements for both kinds. */
  lemma VerdictByMessage(cfg: Config, s: State, m: Message, t: Instants)
    ensures var v := Dispatch(cfg, s, m, t).1;
            v.Answer? ==>
              || (v.kind == 2 && m.Discover? && v.withLease)
              || (v.kind == 5 && m.Request? && v.withLease)
              || (v.kind == 6 && m.Request? && !v.withLease)
              || (v.kind == 5 && m.Inform? && !v.withLease)
  {
    hide Obtain, RenewOrObtain;
  }

  lemma TypeOfMessage(p: Packet, os: seq<Opt>)
    requires Valid(p)
    ensures var m, kind := Classify(p, os), ValueOf(os, 53);
            && (m.Discover? ==> kind == Some([1])) && (m.Request? ==> kind == Some([3]))
            && (m.Decline? ==> kind == Some([4])) && (m.Release? ==> kind == Some([7]))
            && (m.Inform? ==> kind == Some([8]))
  {
    MessageByNumber(p, os);
    hide ValueOf, Classify, ClientId, AddressIn, BadAddressIn;
    var kind := ValueOf(os, 53);
    assert kind.Some? && |kind.value| == 1 ==> kind.value == [kind.value[0]];
  }

  /** None of the options 51, 58 and 59 of a lease. */
  predicate Bare(os: seq<Opt>) {
    ValueOf(os, 51).None? && ValueOf(os, 58).None? && ValueOf(os, 59).None?
  }

  lemma ReplyOfVerdict(cfg: Config, s: State, data: seq<byte>, t: Instants)
    requires Step(cfg, s, data, t).1.Reply?
    ensures Read(data).Some? && OptionsOf(Step(cfg, s, data, t).1.data).Some?
    ensures var v, reply := Dispatch(cfg, s, Read(data).value.1, t).1, Step(cfg, s, data, t).1.data;
            v.Answer? && IsType(reply, v.kind) && (Bare(OptionsOf(reply).value) <==> !v.withLease)
  {
    hide Step, Dispatch, FromBytes, ParseFrom, ReplyOptions, Read, TimersDecode, ValueOf, PutU32;
    EveryReplyReadsBack(cfg, s, data, t);
    var v := Dispatch(cfg, s, Read(data).value.1, t).1;
    ReplyOptionValues(cfg, v.kind, v.withLease);
  }

  lemma TypeOfDatagram(data: seq<byte>)
    requires Read(data).Some?
    ensures var m := Read(data).value.1;
            && (m.Discover? ==> IsType(data, 1)) && (m.Request? ==> IsType(data, 3))
            && (m.Decline? ==> IsType(data, 4)) && (m.Release? ==> IsType(data, 7)) && (m.Inform? ==> IsType(data, 8))
  {
    hide FromBytes, ParseFrom, Classify, ValueOf, Read;
    ReadByNumber(data);
    TypeOfMessage(FromBytes(data).value, OptionsOf(data).value);
  }

  /**
   A reply of type 2 answers type 1, a reply of type 6 answers type 3, and a reply of type 5
   answers type 3 or 8; there is no other reply.  A reply of type 6, and one to type 8, carries
   none of the options of a lease; the others carry them.
   */
  lemma ReplyByNumber(cfg: Config, s: State, data: seq<byte>, t: Instants)
    requires Step(cfg, s, data, t).1.Reply?
    ensures var reply := Step(cfg, s, data, t).1.data;
            && OptionsOf(reply).Some?
            && var bare := Bare(OptionsOf(reply).value);
               || (IsType(data, 1) && IsType(reply, 2) && !bare)
               || (IsType(data, 3) && IsType(reply, 5) && !bare)
               || (IsType(data, 3) && IsType(reply, 6) && bare)
               || (IsType(data, 8) && IsType(reply, 5) && bare)
  {
    hide Step, Dispatch, OptionsOf, IsType, Read, Bare;
    ReplyOfVerdict(cfg, s, data, t);
    VerdictByMessage(cfg, s, Read(data).value.1, t);
    TypeOfDatagram(data);
  }

  // ----- what a datagram changes -----

  /** Only the types 1, 3, 4 and 7 change anything, and never more than leases and rows. */
  lemma ChangeByNumber(cfg: Config, s: State, data: seq<byte>, t: Instants)
    ensures var s' := Step(cfg, s, data, t).0;
            && s'.area == s.area && s'.reservations == s.reservations
            && (s' != s ==> IsType(data, 1) || IsType(data, 3) || IsType(data, 4) || IsType(data, 7))
  {
    ReadByNumber(data);
    if Read(data).Some? {
      TypeOfMessage(FromBytes(data).value, OptionsOf(data).value);
      DispatchFrame(cfg, s, Read(data).value.1, t);
    }
    hide Dispatch, FromBytes, ParseFrom, Read, Classify, Render, ValueOf;
  }

  lemma ObtainFrame(cfg: Config, s: State, c: string, requested: Option<Address>, t: Instants)
    requires c != ""
    ensures Obtain(cfg, s, c, requested, t).0.area == s.area
    ensures Obtain(cfg, s, c, requested, t).0.reservations == s.reservations
  {
    hide CreatedAt, Created, Saved, NormalizeClientId;
  }

  lemma DispatchFrame(cfg: Config, s: State, m: Message, t: Instants)
    ensures var s' := Dispatch(cfg, s, m, t).0;
            && s'.area == s.area && s'.reservations == s.reservations
            && (s' != s ==> m.Discover? || m.Request? || m.Decline? || m.Release?)
  {
    hide Obtain;
    match m
    case Discover(c, requested) => if c != "" { ObtainFrame(cfg, s, c, requested, t); }
    case Request(c, requested, server) =>
      if c != "" { ObtainFrame(cfg, s.(leases := DropClient(s.leases, c, t[0])), c, requested, t); }
    case _ =>
  }

  /** Type 7 takes exactly the lease and the row of the client it speaks for, and is not answered. */
  lemma ReleaseByNumber(cfg: Config, s: State, data: seq<byte>, t: Instants)
    requires IsType(data, 7)
    ensures var c := ClientOf(data);
            Step(cfg, s, data, t)
            == (if c == "" then s else s.(leases := s.leases - {c}, rows := s.rows - {c}), Silent)
  {
    ReadByNumber(data);
    MessageByNumber(FromBytes(data).value, OptionsOf(data).value);
    hide FromBytes, ParseFrom, Read, Classify, ClientId, ValueOf;
  }

  /**
   Type 4 takes lease and row of the client it speaks for when that client has a live lease and
   option 50 is missing or names its address; otherwise at most its lapsed lease goes.  It is not
   answered.
   */
  lemma DeclineByNumber(cfg: Config, s: State, data: seq<byte>, t: Instants)
    requires IsType(data, 4)
    ensures var c, os := ClientOf(data), OptionsOf(data).value;
            var live := c in s.leases && t[0] < s.leases[c].end;
            Step(cfg, s, data, t)
            == if BadAddressIn(os, 50) then (s, Raised(BadOption(BadAddress)))
               else if c == "" then (s, Raised(BadLease(EmptyClientId)))
               else (if live && AddressIn(os, 50) in {None, Some(s.leases[c].ip)}
                     then s.(leases := s.leases - {c}, rows := s.rows - {c})
                     else if live then s else s.(leases := s.leases - {c}), Silent)
  {
    hide FromBytes, ParseFrom, Read, Classify, ClientId, ValueOf, AddressIn, BadAddressIn;
    ReadByNumber(data);
    MessageByNumber(FromBytes(data).value, OptionsOf(data).value);
    var c := ClientOf(data);
    assert c !in s.leases ==> s.leases - {c} == s.leases;
  }

  /** A request that names another server in option 54 is not answered and has no effect. */
  lemma OtherServerByNumber(cfg: Config, s: State, data: seq<byte>, t: Instants)
    requires IsType(data, 3)
    requires var os := OptionsOf(data).value;
             !BadAddressIn(os, 50) && !BadAddressIn(os, 54) && AddressIn(os, 54) !in {None, Some(cfg.serverIp)}
    ensures Step(cfg, s, data, t) == (s, Silent)
  {
    hide FromBytes, ParseFrom, Read, Classify, ClientId, ValueOf, AddressIn, BadAddressIn;
    ReadByNumber(data);
    MessageByNumber(FromBytes(data).value, OptionsOf(data).value);
  }

  lemma InformStep(cfg: Config, s: State, data: seq<byte>, t: Instants)
    requires IsType(data, 8)
    ensures Step(cfg, s, data, t).0 == s && Step(cfg, s, data, t).1.Reply?
  {
    hide FromBytes, ParseFrom, Read, Classify, ClientId, ValueOf, ToBytes, ReplyPacket;
    ReadByNumber(data);
    MessageByNumber(FromBytes(data).value, OptionsOf(data).value);
  }

  /** Type 8 changes nothing and is always answered by type 5, without the options of a lease. */
  lemma InformByNumber(cfg: Config, s: State, data: seq<byte>, t: Instants)
    requires IsType(data, 8)
    ensures Step(cfg, s, data, t).0 == s && Step(cfg, s, data, t).1.Reply?
    ensures var reply := Step(cfg, s, data, t).1.data; IsType(reply, 5) && Bare(OptionsOf(reply).value)
  {
    hide Step, OptionsOf, ValueOf, Bare;
    InformStep(cfg, s, data, t);
    ReplyByNumber(cfg, s, data, t);
    assert Some([8 as byte]).value[0] == 8 && Some([1 as byte]).value[0] == 1 && Some([3 as byte]).value[0] == 3;
  }

  /** Nothing else is answered or has any effect: other types, no type, and what cannot be read. */
  lemma OthersByNumber(cfg: Config, s: State, data: seq<byte>, t: Instants)
    requires OptionsOf(data).None? || ValueOf(OptionsOf(data).value, 53).None?
             || exists x :: IsType(data, x) && x !in [1, 3, 4, 7, 8]
    ensures Step(cfg, s, data, t) == (s, Silent)
  {
    ReadByNumber(data);
    if OptionsOf(data).Some? {
      MessageByNumber(FromBytes(data).value, OptionsOf(data).value);
    }
    hide FromBytes, ParseFrom, Read, Classify, ClientId, ValueOf;
  }

  // ----- who sends a datagram -----

  /** Octets of the hardware address that count: as many as `hlen` says, but no more than there are. */
  function Length(p: Packet): nat {
    if p.hlen <= 16 then p.hlen else 16
  }

  /** Two packets without option 61 name the same client exactly when their hardware addresses agree octet for octet. */
  lemma SameAddressExactly(p: Packet, os: seq<Opt>, q: Packet, qs: seq<Opt>)
    requires Valid(p) && Valid(q)
    requires ValueOf(os, 61).None? || ValueOf(os, 61).value == []
    requires ValueOf(qs, 61).None? || ValueOf(qs, 61).value == []
    ensures ClientId(p, os) == ClientId(q, qs)
            <==> Length(p) == Length(q) && forall i :: 0 <= i < Length(p) ==> p.chaddr[i] == q.chaddr[i]
  {
    MacIsInjective(HardwareAddress(p), HardwareAddress(q));
    var a, b := HardwareAddress(p), HardwareAddress(q);
    assert |a| == Length(p) && |b| == Length(q);
    assert forall i :: 0 <= i < Length(p) ==> a[i] == p.chaddr[i];
    assert forall i :: 0 <= i < Length(q) ==> b[i] == q.chaddr[i];
    hide Mac, ValueOf;
  }

  /** Two packets with option 61 name the same client exactly when they have the same octets there. */
  lemma SameOptionExactly(p: Packet, os: seq<Opt>, q: Packet, qs: seq<Opt>)
    requires Valid(p) && Valid(q)
    requires ValueOf(os, 61).Some? && ValueOf(os, 61).value != []
    requires ValueOf(qs, 61).Some? && ValueOf(qs, 61).value != []
    ensures ClientId(p, os) == ClientId(q, qs) <==> ValueOf(os, 61) == ValueOf(qs, 61)
  {
    if ClientId(p, os) == ClientId(q, qs) {
      HexIsInjective(ValueOf(os, 61).value, ValueOf(qs, 61).value);
    }
    hide Hex, ValueOf;
  }
}
