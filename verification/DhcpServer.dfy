/**
 The server object (dhcp/server.py) over its pool, lease manager, reservations and store.
 Each handler is proved to do to these objects exactly what DhcpProtocol says on values.
 */
module DhcpServer {
  import opened Bytes
  import opened ClientIds
  import opened DhcpLeases
  import opened DhcpOptions
  import opened DhcpPacket
  import opened DhcpPool
  import opened DhcpProtocol
  import opened DhcpReplies
  import opened DhcpReservations
  import opened DhcpStorage
  import opened LeaseBook

  class DHCPServer {
    const config: Config
    const reservations: DHCPReservationManager
    const leaseManager: DHCPLeaseManager
    const storage: DHCPLeaseStorage

    ghost predicate Valid()
      reads leaseManager, leaseManager.pool, leaseManager.objects, reservations, storage
    {
      leaseManager.Valid() && reservations.Valid() && storage.Valid()
    }

    ghost function Now(): State
      reads leaseManager, leaseManager.pool, reservations, storage
    {
      State(leaseManager.Terrain(), reservations.byClient, leaseManager.table, storage.rows)
    }

    constructor (config: Config, pool: DHCPAddressPool)
      requires pool.Valid() && pool.leased == {}
      ensures Valid() && this.config == config && leaseManager.pool == pool
      ensures Now() == State(Area(pool.start, pool.end, pool.reserved), map[], map[], map[])
      ensures fresh(leaseManager) && fresh(reservations) && fresh(storage) && leaseManager.objects == {}
    {
      this.config := config;
      reservations := new DHCPReservationManager();
      leaseManager := new DHCPLeaseManager(pool);
      storage := new DHCPLeaseStorage();
    }

    /** The lease object handed to a handler is the filed one and says what the specification says. */
    ghost predicate Obtained(c: string, r: Result<DHCPLease?, Failure>, spec: Result<Option<Binding>, Failure>)
      reads leaseManager, leaseManager.objects
    {
      if spec.Err? then r == Err(spec.error)
      else if spec.value.None? then r == Ok(null)
      else
        && c in leaseManager.byClient && leaseManager.byClient[c] in leaseManager.objects
        && r == Ok(leaseManager.byClient[c]) && leaseManager.byClient[c].Terms() == spec.value.value
    }

    method PersistLease(c: string, lease: DHCPLease) returns (r: Result<DHCPLease?, Failure>)
      requires Valid() && Strip(c) == c != "" && c in leaseManager.byClient && leaseManager.byClient[c] == lease
      modifies storage
      ensures Valid()
      ensures var spec := Persist(old(Now()), c, lease.Terms());
              Now() == spec.0 && Obtained(c, r, spec.1)
    {
      var saved := storage.Save(lease.clientId, lease.Terms());
      if !saved {
        return Err(StorageRefused);
      }
      return Ok(lease);
    }

    /** Storing the outcome of a lease operation; a failed operation stores nothing. */
    method PersistResult(c: string, made: Result<DHCPLease, LeaseError>, ghost before: State,
                         ghost spec: (Book, Result<Binding, LeaseError>))
      returns (r: Result<DHCPLease?, Failure>)
      requires Valid() && Strip(c) == c != "" && leaseManager.Realizes(c, made, spec)
      requires Now() == before.(leases := spec.0)
      modifies storage
      ensures Valid()
      ensures Now() == Settle(before, c, spec).0 && Obtained(c, r, Settle(before, c, spec).1)
    {
      if made.Err? {
        return Ok(null);
      }
      r := PersistLease(c, made.value);
    }

    method ObtainLease(c: string, requested: Option<Address>, t: Instants) returns (r: Result<DHCPLease?, Failure>)
      requires Valid() && Strip(c) == c
      modifies leaseManager, leaseManager.pool`leased, leaseManager.objects, storage
      ensures Valid() && fresh(leaseManager.objects - old(leaseManager.objects))
      ensures c == "" ==> r == Err(BadLease(EmptyClientId)) && Now() == old(Now())
      ensures c != "" ==> var spec := Obtain(config, old(Now()), c, requested, t);
                          Now() == spec.0 && Obtained(c, r, spec.1)
    {
      hide Strip, ObtainRequested, CreatedAt, Inverse;
      var existing := leaseManager.GetByClient(c, t[1]);
      if existing.Err? {
        return Err(BadLease(existing.error));
      }
      if existing.value != null {
        r := PersistLease(c, existing.value);
        return;
      }
      var reservation := reservations.GetByClient(c);
      NormalNotEmpty(c);
      if reservation.value.Some? {
        var fixed := reservation.value.value;
        r := ObtainReserved(c, fixed, t);
        return;
      }
      r := ObtainAvailable(c, requested, t);
    }

    method ObtainReserved(c: string, fixed: Reservation, t: Instants) returns (r: Result<DHCPLease?, Failure>)
      requires Valid() && Strip(c) == c != ""
      modifies leaseManager, leaseManager.pool`leased, leaseManager.objects, storage
      ensures Valid() && fresh(leaseManager.objects - old(leaseManager.objects))
      ensures var s := old(Now());
              var made := CreatedAt(s.area, s.leases, c, fixed.ip, config.leaseTime, fixed.hostname, t[2], t[3], t[4]);
              var spec := Settle(s, c, made);
              Now() == spec.0 && Obtained(c, r, spec.1)
    {
      hide Strip, CreatedAt, Inverse, Recorded;
      ghost var s := Now();
      var made := leaseManager.CreateSpecific(c, fixed.ip, config.leaseTime, fixed.hostname, t[2], t[3], t[4]);
      r := PersistResult(c, made, s,
                         CreatedAt(s.area, s.leases, c, fixed.ip, config.leaseTime, fixed.hostname, t[2], t[3], t[4]));
    }

    method ObtainAvailable(c: string, requested: Option<Address>, t: Instants) returns (r: Result<DHCPLease?, Failure>)
      requires Valid() && Strip(c) == c != ""
      modifies leaseManager, leaseManager.pool`leased, leaseManager.objects, storage
      ensures Valid() && fresh(leaseManager.objects - old(leaseManager.objects))
      ensures var spec := ObtainRequested(config, old(Now()), c, requested, t);
              Now() == spec.0 && Obtained(c, r, spec.1)
    {
      hide Strip, CreatedAt, ObtainDynamic, Inverse, Recorded;
      ghost var s := Now();
      if requested.Some? {
        var made := leaseManager.CreateSpecific(c, requested.value, config.leaseTime, None, t[2], t[3], t[4]);
        if made.Ok? {
          r := PersistResult(c, made, s,
                             CreatedAt(s.area, s.leases, c, requested.value, config.leaseTime, None, t[2], t[3], t[4]));
          return;
        }
      }
      r := ObtainFromPool(c, t);
    }

    method ObtainFromPool(c: string, t: Instants) returns (r: Result<DHCPLease?, Failure>)
      requires Valid() && Strip(c) == c != ""
      modifies leaseManager, leaseManager.pool`leased, storage
      ensures Valid() && fresh(leaseManager.objects - old(leaseManager.objects))
      ensures var spec := ObtainDynamic(config, old(Now()), c, t);
              Now() == spec.0 && Obtained(c, r, spec.1)
    {
      hide Strip, Created, Inverse, Recorded;
      ghost var s := Now();
      var made := leaseManager.Create(c, config.leaseTime, None, t[5], t[6]);
      r := PersistResult(c, made, s, Created(s.area, s.leases, c, config.leaseTime, None, t[5], t[6]));
    }

    /** The answer to a message, before it is put on the wire. */
    method Decide(kind: byte, refusal: Verdict, c: string, r: Result<DHCPLease?, Failure>,
                  ghost spec: Result<Option<Binding>, Failure>) returns (v: Verdict)
      requires Obtained(c, r, spec)
      ensures v == Decided(kind, refusal, spec)
    {
      if r.Err? {
        return Failed(r.error);
      }
      if r.value == null {
        return refusal;
      }
      return Answer(kind, r.value.ipAddress, true);
    }

    method OnDiscover(c: string, requested: Option<Address>, t: Instants) returns (v: Verdict)
      requires Valid() && Strip(c) == c
      modifies leaseManager, leaseManager.pool`leased, leaseManager.objects, storage
      ensures Valid() && fresh(leaseManager.objects - old(leaseManager.objects))
      ensures (Now(), v) == HandleDiscover(config, old(Now()), c, requested, t)
    {
      hide Strip, Obtain, Inverse, Recorded;
      ghost var s := Now();
      var r := ObtainLease(c, requested, t);
      if c == "" {
        return Failed(r.error);
      }
      v := Decide(OFFER, NoAnswer, c, r, Obtain(config, s, c, requested, t).1);
    }

    method OnRequest(c: string, requested: Option<Address>, server: Option<Address>, t: Instants) returns (v: Verdict)
      requires Valid() && Strip(c) == c
      modifies leaseManager, leaseManager.pool`leased, leaseManager.objects, storage
      ensures Valid() && fresh(leaseManager.objects - old(leaseManager.objects))
      ensures (Now(), v) == HandleRequest(config, old(Now()), c, requested, server, t)
    {
      hide Strip, RenewOrObtain, Inverse, Recorded;
      if server.Some? && server.value != config.serverIp {
        return NoAnswer;
      }
      if c == "" {
        return Failed(BadLease(EmptyClientId));
      }
      ghost var s := Now();
      var r := RenewOrObtainLease(c, requested, t);
      v := Decide(ACK, Answer(NAK, 0, false), c, r, RenewOrObtain(config, s, c, requested, t).1);
    }

    method RenewOrObtainLease(c: string, requested: Option<Address>, t: Instants)
      returns (r: Result<DHCPLease?, Failure>)
      requires Valid() && Strip(c) == c != ""
      modifies leaseManager, leaseManager.pool`leased, leaseManager.objects, storage
      ensures Valid() && fresh(leaseManager.objects - old(leaseManager.objects))
      ensures var spec := RenewOrObtain(config, old(Now()), c, requested, t);
              Now() == spec.0 && Obtained(c, r, spec.1)
    {
      hide Strip, Obtain, Inverse;
      var existing := leaseManager.GetByClient(c, t[0]);
      ghost var s0 := Now();
      if existing.value != null {
        var made := leaseManager.Renew(c, config.leaseTime, t[1], t[2]);
        r := PersistResult(c, made, s0, Renewed(s0.leases, c, config.leaseTime, t[1], t[2]));
      } else {
        r := ObtainLease(c, requested, t);
      }
    }

    method OnDecline(c: string, declined: Option<Address>, t: Instants) returns (v: Verdict)
      requires Valid() && Strip(c) == c
      modifies leaseManager, leaseManager.pool`leased, storage
      ensures Valid() && leaseManager.objects == old(leaseManager.objects)
      ensures (Now(), v) == HandleDecline(old(Now()), c, declined, t)
    {
      var lease := leaseManager.GetByClient(c, t[0]);
      if lease.Err? {
        return Failed(BadLease(lease.error));
      }
      if lease.value != null && (declined.None? || lease.value.ipAddress == declined.value) {
        assert lease.value.Terms() == leaseManager.table[c];
        Forget(c);
      }
      return NoAnswer;
    }

    /** The client's lease and its stored row go together. */
    method Forget(c: string)
      requires Valid() && Strip(c) == c != ""
      modifies leaseManager, leaseManager.pool`leased, storage
      ensures Valid() && leaseManager.objects == old(leaseManager.objects)
      ensures Now() == old(Now()).(leases := old(Now()).leases - {c}, rows := old(Now()).rows - {c})
    {
      var released := leaseManager.Release(c);
      var deleted := storage.Delete(c);
    }

    method OnRelease(c: string) returns (v: Verdict)
      requires Valid() && Strip(c) == c
      modifies leaseManager, leaseManager.pool`leased, storage
      ensures Valid() && leaseManager.objects == old(leaseManager.objects)
      ensures (Now(), v) == HandleRelease(old(Now()), c)
    {
      var released := leaseManager.Release(c);
      var deleted := storage.Delete(c);
      return NoAnswer;
    }

    /** One datagram does to the objects what one step of the protocol does to the state. */
    method HandlePacket(data: seq<byte>, t: Instants) returns (out: Outcome)
      requires Valid()
      modifies leaseManager, leaseManager.pool`leased, leaseManager.objects, storage
      ensures Valid() && fresh(leaseManager.objects - old(leaseManager.objects))
      ensures (Now(), out) == Step(config, old(Now()), data, t)
    {
      var packet := FromBytes(data);
      if packet.Err? {
        return Silent;
      }
      var options := ParseOptions(packet.value.options);
      if options.Err? {
        return Silent;
      }
      var m := Classify(packet.value, options.value);
      var v := HandleMessage(packet.value, options.value, m, t);
      return Render(config, packet.value, v);
    }

    method HandleMessage(packet: Packet, options: seq<Opt>, m: Message, t: Instants) returns (v: Verdict)
      requires Valid() && DhcpPacket.Valid(packet) && m == Classify(packet, options)
      modifies leaseManager, leaseManager.pool`leased, leaseManager.objects, storage
      ensures Valid() && fresh(leaseManager.objects - old(leaseManager.objects))
      ensures (Now(), v) == Dispatch(config, old(Now()), m, t)
    {
      ClientIdIsTrimmed(packet, options);
      SenderIsTrimmed(packet, options);
      match m
      case Discover(c, requested) => v := OnDiscover(c, requested, t);
      case Request(c, requested, server) => v := OnRequest(c, requested, server, t);
      case Decline(c, declined) => v := OnDecline(c, declined, t);
      case Release(c) => v := OnRelease(c);
      case Inform => v := Answer(ACK, 0, false);
      case Ignored => v := NoAnswer;
      case Malformed(e) => v := Failed(BadOption(e));
    }
  }

  lemma SenderIsTrimmed(p: Packet, os: seq<Opt>)
    requires DhcpPacket.Valid(p)
    ensures var m := Classify(p, os);
            && (m.Discover? || m.Request? || m.Decline? || m.Release? ==> m.client == ClientId(p, os))
  {
  }

  /** A client identifier with something in it has a normal form with something in it. */
  lemma NormalNotEmpty(c: string)
    requires Strip(c) == c != ""
    ensures NormalizeClientId(c) != ""
  {
  }
}
