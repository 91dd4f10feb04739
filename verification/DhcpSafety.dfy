/** What every datagram keeps, and what every reply says. */
module DhcpSafety {
  import opened Bytes
  import opened ClientIds
  import opened DhcpOptions
  import opened DhcpPacket
  import opened DhcpProtocol
  import opened DhcpReplies
  import opened DhcpReservations
  import opened DhcpStorage
  import opened LeaseBook

  // ----- one datagram -----

  /** The client keeps its address, or its lease had lapsed by the last reading of the clock. */
  ghost predicate KeptOrLapsed(book: Book, book': Book, d: string, now: real) {
    d in book ==> (d in book' && book'[d].ip == book[d].ip) || now >= book[d].end
  }

  lemma PersistKeepsMemory(s: State, c: string, b: Binding)
    ensures var r := Persist(s, c, b);
            && r.0.(rows := s.rows) == s
            && (r.1.Ok? ==> r.1.value == Some(b))
            && (r.1.Err? <==> Conflicts(s.rows, c, b.ip))
  {
  }

  lemma SettleKeeps(s: State, c: string, r: (Book, Result<Binding, LeaseError>))
    requires r.1.Ok? ==> c in r.0 && r.0[c] == r.1.value
    ensures var q := Settle(s, c, r);
            && q.0.leases == r.0 && q.0.area == s.area && q.0.reservations == s.reservations
            && (q.1.Ok? && q.1.value.Some? ==> c in r.0 && r.0[c] == q.1.value.value)
  {
  }

  ghost predicate ObtainGood(s: State, s': State, c: string, r: Result<Option<Binding>, Failure>, now: real) {
    && s'.area == s.area && s'.reservations == s.reservations
    && Sound(s.area, s'.leases) && OthersKept(s.leases, s'.leases, c, now)
    && (r.Ok? && r.value.Some? ==> c in s'.leases && s'.leases[c] == r.value.value)
  }

  lemma DynamicKeeps(cfg: Config, s: State, c: string, t: Instants)
    requires Sound(s.area, s.leases)
    ensures var q := ObtainDynamic(cfg, s, c, t); ObtainGood(s, q.0, c, q.1, t[6])
  {
    CreatedKeepsSound(s.area, s.leases, c, cfg.leaseTime, None, t[5], t[6]);
    SettleKeeps(s, c, Created(s.area, s.leases, c, cfg.leaseTime, None, t[5], t[6]));
  }

  lemma RequestedKeeps(cfg: Config, s: State, c: string, requested: Option<Address>, t: Instants)
    requires Sound(s.area, s.leases)
    ensures var q := ObtainRequested(cfg, s, c, requested, t); ObtainGood(s, q.0, c, q.1, t[6])
  {
    if requested.None? {
      DynamicKeeps(cfg, s, c, t);
    } else {
      CreatedAtKeepsSound(s.area, s.leases, c, requested.value, cfg.leaseTime, None, t[2], t[3], t[4]);
      var r := CreatedAt(s.area, s.leases, c, requested.value, cfg.leaseTime, None, t[2], t[3], t[4]);
      SettleKeeps(s, c, r);
      if r.1.Err? {
        var s1 := s.(leases := r.0);
        DynamicKeeps(cfg, s1, c, t);
        OthersKeptTwice(s.leases, r.0, ObtainDynamic(cfg, s1, c, t).0.leases, c, t[4], t[6]);
      }
    }
  }

  lemma ReservedKeeps(cfg: Config, s: State, c: string, fixed: Reservation, t: Instants)
    requires Sound(s.area, s.leases)
    ensures var r := CreatedAt(s.area, s.leases, c, fixed.ip, cfg.leaseTime, fixed.hostname, t[2], t[3], t[4]);
            var q := Settle(s, c, r);
            ObtainGood(s, q.0, c, q.1, t[6])
  {
    var r := CreatedAt(s.area, s.leases, c, fixed.ip, cfg.leaseTime, fixed.hostname, t[2], t[3], t[4]);
    CreatedAtKeepsSound(s.area, s.leases, c, fixed.ip, cfg.leaseTime, fixed.hostname, t[2], t[3], t[4]);
    SettleKeeps(s, c, r);
    OthersKeptTwice(s.leases, s.leases, r.0, c, t[2], t[6]);
  }

  /** Dropping the client's own lapsed lease first does not change what is kept. */
  lemma AfterDrop(s: State, c: string, now: real, s': State, r: Result<Option<Binding>, Failure>, later: real)
    requires Sound(s.area, s.leases) && now <= later
    requires ObtainGood(s.(leases := DropClient(s.leases, c, now)), s', c, r, later)
    ensures ObtainGood(s, s', c, r, later)
    ensures c !in DropClient(s.leases, c, now) ==> KeptOrLapsed(s.leases, s'.leases, c, later)
  {
    OthersKeptTwice(s.leases, DropClient(s.leases, c, now), s'.leases, c, now, later);
  }

  lemma DropKeepsSound(s: State, c: string, now: real)
    requires Sound(s.area, s.leases)
    ensures Sound(s.area, DropClient(s.leases, c, now))
    ensures c in DropClient(s.leases, c, now) ==> DropClient(s.leases, c, now) == s.leases
  {
    SoundShrinks(s.area, s.leases, DropClient(s.leases, c, now));
  }

  lemma ObtainKeeps(cfg: Config, s: State, c: string, requested: Option<Address>, t: Instants)
    requires Sound(s.area, s.leases) && c != ""
    ensures var q := Obtain(cfg, s, c, requested, t);
            ObtainGood(s, q.0, c, q.1, t[6]) && KeptOrLapsed(s.leases, q.0.leases, c, t[6])
  {
    var s0 := s.(leases := DropClient(s.leases, c, t[1]));
    DropKeepsSound(s, c, t[1]);
    if c in s0.leases {
      PersistKeepsMemory(s0, c, s0.leases[c]);
    } else {
      if NormalizeClientId(c) in s.reservations {
        ReservedKeeps(cfg, s0, c, s.reservations[NormalizeClientId(c)], t);
      } else {
        RequestedKeeps(cfg, s0, c, requested, t);
      }
      var q := Obtain(cfg, s, c, requested, t);
      AfterDrop(s, c, t[1], q.0, q.1, t[6]);
    }
  }

  /** The client a message speaks for. */
  function Sender(m: Message): Option<string> {
    match m
    case Discover(c, _) => Some(c)
    case Request(c, _, _) => Some(c)
    case Decline(c, _) => Some(c)
    case Release(c) => Some(c)
    case _ => None
  }

  predicate GivesUp(m: Message, c: string) {
    m == Release(c) || (m.Decline? && m.client == c)
  }

  ghost predicate StepGood(s: State, s': State, m: Message, now: real) {
    && s'.area == s.area && s'.reservations == s.reservations
    && Sound(s.area, s'.leases)
    && forall d :: d in s.leases && !GivesUp(m, d) ==> KeptOrLapsed(s.leases, s'.leases, d, now)
  }

  lemma RenewOrObtainKeeps(cfg: Config, s: State, c: string, requested: Option<Address>, t: Instants)
    requires Sound(s.area, s.leases) && c != ""
    ensures var q := RenewOrObtain(cfg, s, c, requested, t);
            ObtainGood(s, q.0, c, q.1, t[6]) && KeptOrLapsed(s.leases, q.0.leases, c, t[6])
  {
    var s0 := s.(leases := DropClient(s.leases, c, t[0]));
    DropKeepsSound(s, c, t[0]);
    if c in s0.leases {
      var r := Renewed(s.leases, c, cfg.leaseTime, t[1], t[2]);
      RenewKeepsSound(s.area, s.leases, c, cfg.leaseTime, t[1], t[2]);
      OthersKeptTwice(s.leases, s.leases, r.0, c, t[0], t[6]);
      SettleKeeps(s, c, r);
    } else {
      ObtainKeeps(cfg, s0, c, requested, t);
      var q := Obtain(cfg, s0, c, requested, t);
      AfterDrop(s, c, t[0], q.0, q.1, t[6]);
    }
  }

  /**
   Every message keeps the leases sound, and takes an address from a client only when that
   client releases or declines it or its lease has lapsed.
   */
  lemma DispatchGood(cfg: Config, s: State, m: Message, t: Instants)
    requires Sound(s.area, s.leases)
    ensures StepGood(s, Dispatch(cfg, s, m, t).0, m, t[6])
  {
    hide Obtain, RenewOrObtain, Sound;
    match m
    case Discover(c, requested) =>
      if c != "" { ObtainKeeps(cfg, s, c, requested, t); }
    case Request(c, requested, server) =>
      if c != "" { RenewOrObtainKeeps(cfg, s, c, requested, t); }
    case Decline(c, declined) =>
      SoundShrinks(s.area, s.leases, HandleDecline(s, c, declined, t).0.leases);
    case Release(c) => SoundShrinks(s.area, s.leases, HandleRelease(s, c).0.leases);
    case Inform =>
    case Ignored =>
    case Malformed(e) =>
  }

  /** An answer that carries a lease names the address the asking client now holds in memory. */
  lemma GrantNamesHeldAddress(cfg: Config, s: State, m: Message, t: Instants)
    requires Sound(s.area, s.leases)
    requires Dispatch(cfg, s, m, t).1.Answer? && Dispatch(cfg, s, m, t).1.withLease
    ensures Sender(m).Some?
    ensures var (s', v) := Dispatch(cfg, s, m, t);
            Sender(m).value in s'.leases && s'.leases[Sender(m).value].ip == v.yiaddr
  {
    hide Obtain, RenewOrObtain, Sound;
    match m
    case Discover(c, requested) => ObtainKeeps(cfg, s, c, requested, t);
    case Request(c, requested, server) => RenewOrObtainKeeps(cfg, s, c, requested, t);
    case _ =>
  }

  /** On the wire: the reply grants `a` exactly when the verdict carries a lease on `a`. */
  lemma ReplyGrants(cfg: Config, p: Packet, v: Verdict, a: Address)
    requires Valid(p) && Render(cfg, p, v).Reply?
    ensures v.Answer? && (Grants(Render(cfg, p, v).data, a) <==> v.withLease && v.yiaddr == a)
  {
    GrantsExactly(cfg, p, v.kind, v.yiaddr, v.withLease, a);
  }

  /** The lease options of a reply, as a client decodes them; none of the three without a lease. */
  ghost predicate TimersDecode(os: seq<Opt>, leaseTime: int) {
    && Packable(leaseTime)
    && ValueOf(os, 51) == Some(PutU32(leaseTime))
    && ValueOf(os, 58) == Some(PutU32(RenewalTime(leaseTime)))
    && ValueOf(os, 59) == Some(PutU32(RebindingTime(leaseTime)))
    && (RenewalTime(leaseTime) < RebindingTime(leaseTime) < leaseTime <==> leaseTime >= 3)
  }

  /**
   Every reply any handler produces parses back with both codecs: op 2, the transaction, flags
   and hardware address of the request, the decided address, and exactly the option list built.
   */
  lemma EveryReplyReadsBack(cfg: Config, s: State, data: seq<byte>, t: Instants)
    requires Step(cfg, s, data, t).1.Reply?
    ensures FromBytes(data).Ok? && Read(data).Some?
    ensures var request := FromBytes(data).value;
            var v := Dispatch(cfg, s, Read(data).value.1, t).1;
            var reply := FromBytes(Step(cfg, s, data, t).1.data);
            && v.Answer? && reply.Ok? && reply.value.op == 2
            && reply.value == request.(op := 2, yiaddr := reply.value.yiaddr, siaddr := cfg.serverIp,
                                       options := reply.value.options)
            && reply.value.yiaddr == v.yiaddr && reply.value.siaddr == cfg.serverIp
            && (v.withLease ==> Packable(cfg.leaseTime))
            && var os := ReplyOptions(cfg, v.kind, v.withLease);
            && ParseFrom(reply.value.options) == Ok(os)
            && ValueOf(os, 53) == Some([v.kind])
            && (if v.withLease then TimersDecode(os, cfg.leaseTime) else ValueOf(os, 51) == None)
  {
    hide Dispatch, FromBytes, ReplyOptions, ParseFrom;
    ReadIsFromBytes(data);
    var v := Dispatch(cfg, s, Read(data).value.1, t).1;
    ReplyReadsBack(cfg, FromBytes(data).value, v.kind, v.yiaddr, v.withLease);
    ReplyOptionValues(cfg, v.kind, v.withLease);
    TimersAreOrdered(cfg.leaseTime);
  }

  lemma ReadIsFromBytes(data: seq<byte>)
    ensures Read(data).Some? ==> FromBytes(data).Ok? && Read(data).value.0 == FromBytes(data).value
  {
  }
}
