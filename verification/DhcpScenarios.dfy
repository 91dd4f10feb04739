/**
 Short runs from the empty state that show what the server does not give: two messages to a pool
 of one address, and two devices that are taken for one client.
 */
module DhcpScenarios {
  import opened Bytes
  import opened ClientIds
  import opened DhcpOptions
  import opened DhcpPacket
  import opened DhcpPool
  import opened DhcpPriority
  import opened DhcpProtocol
  import opened DhcpReplies
  import opened LeaseBook

  // ----- a pool of one address -----

  /** Nothing is leased, stored or reserved, and `ip` is the only address. */
  function Empty(ip: Address): State {
    State(Area(ip, ip, {}), map[], map[], map[])
  }

  /** The clock stands still while a message is handled. */
  function Still(now: real): Instants {
    [now, now, now, now, now, now, now]
  }

  /** The state and the lease after the first discover. */
  function Offered(cfg: Config, ip: Address, c: string, now: real): State {
    var b := Binding(ip, now, now + cfg.leaseTime as real, None);
    Empty(ip).(leases := map[c := b], rows := map[c := b])
  }

  /** The first client is offered the address, and its lease is stored. */
  lemma FirstIsOffered(cfg: Config, ip: Address, c: string, now: real)
    requires c != "" && cfg.leaseTime > 0
    ensures Dispatch(cfg, Empty(ip), Discover(c, None), Still(now))
            == (Offered(cfg, ip, c, now), Answer(OFFER, ip, true))
  {
    var s, t := Empty(ip), Still(now);
    assert Taken(s.leases) + {} == {};
    assert LowestFree(ip, ip, {}) == Some(ip);
    assert Created(s.area, s.leases, c, cfg.leaseTime, None, t[5], t[6]).0 == Offered(cfg, ip, c, now).leases;
  }

  /**
   An offer can be worth less than it says: a discover repeated during the lease is offered the
   same lease, which ends before the lease time that the offer advertises has passed.
   */
  lemma RepeatedOfferIsShort(cfg: Config, ip: Address, c: string, now: real, later: real)
    requires c != "" && cfg.leaseTime > 0 && now < later < now + cfg.leaseTime as real
    ensures var s := Dispatch(cfg, Empty(ip), Discover(c, None), Still(now)).0;
            var (s', v) := Dispatch(cfg, s, Discover(c, None), Still(later));
            && v == Answer(OFFER, ip, true)
            && c in s'.leases && s'.leases[c].end < later + cfg.leaseTime as real
  {
    FirstIsOffered(cfg, ip, c, now);
    hide NormalizeClientId, LowestFree;
    var s := Offered(cfg, ip, c, now);
    assert DropClient(s.leases, c, later) == s.leases;
    assert s.rows[c := s.leases[c]] == s.rows;
  }

  /** A lapsed lease still occupies its address: the next client that names none gets nothing. */
  lemma LapsedLeaseExhaustsPool(cfg: Config, ip: Address, c: string, d: string, now: real, later: real)
    requires c != "" && d != "" && c != d && cfg.leaseTime > 0 && now + cfg.leaseTime as real <= later
    ensures var s := Dispatch(cfg, Empty(ip), Discover(c, None), Still(now)).0;
            && s.leases[c].end <= later
            && Dispatch(cfg, s, Discover(d, None), Still(later)) == (s, NoAnswer)
  {
    FirstIsOffered(cfg, ip, c, now);
    hide NormalizeClientId;
    var s := Offered(cfg, ip, c, now);
    assert s.leases[c].ip in Taken(s.leases);
    assert LowestFree(ip, ip, Taken(s.leases) + {}).None?;
  }

  /**
   Naming the address does purge the lapsed lease; but its stored row remains, the write is
   refused, and the client is left with a lease in memory of which it is not told.
   */
  lemma StaleRowRefusesGrant(cfg: Config, ip: Address, c: string, d: string, now: real, later: real)
    requires c != "" && d != "" && c != d && cfg.leaseTime > 0 && now + cfg.leaseTime as real <= later
    ensures var s := Dispatch(cfg, Empty(ip), Discover(c, None), Still(now)).0;
            var (s', v) := Dispatch(cfg, s, Discover(d, Some(ip)), Still(later));
            && v == Failed(StorageRefused)
            && d in s'.leases && s'.leases[d].ip == ip && s'.rows == s.rows
  {
    FirstIsOffered(cfg, ip, c, now);
    LapsedIsChosen(cfg, ip, c, d, now, later);
    hide Dispatch, Chosen, Sound;
    StaleRowMeets(cfg, Offered(cfg, ip, c, now), c, d, ip, Still(later));
  }

  /** The address of a lapsed lease is the one that is chosen for a client that names it. */
  lemma LapsedIsChosen(cfg: Config, ip: Address, c: string, d: string, now: real, later: real)
    requires c != d && cfg.leaseTime > 0 && now + cfg.leaseTime as real <= later
    ensures var s := Offered(cfg, ip, c, now);
            Sound(s.area, s.leases) && Chosen(cfg, s, d, Some(ip), Still(later)) == Some(ip)
  {
    hide NormalizeClientId;
    assert FreeFor(Offered(cfg, ip, c, now), d, ip, later);
  }

  lemma StaleRowMeets(cfg: Config, s: State, c: string, d: string, ip: Address, t: Instants)
    requires Sound(s.area, s.leases) && d != "" && Chosen(cfg, s, d, Some(ip), t) == Some(ip)
    requires c in s.rows && c != d && s.rows[c].ip == ip
    ensures var (s', v) := Dispatch(cfg, s, Discover(d, Some(ip)), t);
            v == Failed(StorageRefused) && d in s'.leases && s'.leases[d].ip == ip && s'.rows == s.rows
  {
    hide Obtain, Chosen, Sound;
    ObtainChooses(cfg, s, d, Some(ip), t);
    ObtainStores(cfg, s, d, Some(ip), t);
    RefusedExactly(cfg, s, d, Some(ip), t);
  }

  // ----- two devices, one name -----

  /**
   A packet without the identifier option and one with it name the same client exactly when the
   option is the first packet's hardware address and a single octet.
   */
  lemma SameNameExactly(p: Packet, os: seq<Opt>, q: Packet, qs: seq<Opt>)
    requires Valid(p) && Valid(q)
    requires ValueOf(os, 61).None? || ValueOf(os, 61).value == []
    requires ValueOf(qs, 61).Some? && ValueOf(qs, 61).value != []
    ensures ClientId(p, os) == ClientId(q, qs)
            <==> HardwareAddress(p) == ValueOf(qs, 61).value && |HardwareAddress(p)| == 1
  {
    MacMeetsHex(HardwareAddress(p), ValueOf(qs, 61).value);
  }

  /** Two such devices: one with a hardware address of one octet, one with six and a one-octet option. */
  lemma TwoDevicesOneName(p: Packet, x: byte)
    requires Valid(p)
    ensures var one := p.(hlen := 1, chaddr := p.chaddr[0 := x]);
            var six := p.(hlen := 6);
            ClientId(one, []) == ClientId(six, [RawOpt(CLIENT_IDENTIFIER, [x])])
  {
    var one, six, os := p.(hlen := 1, chaddr := p.chaddr[0 := x]), p.(hlen := 6), [RawOpt(CLIENT_IDENTIFIER, [x])];
    assert HardwareAddress(one) == [x];
    SameNameExactly(one, [], six, os);
  }
}
