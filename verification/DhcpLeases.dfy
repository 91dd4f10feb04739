/**
 The lease manager (dhcp/lease_manager.py): two indexes over shared lease objects and a pool,
 proved to be one table of LeaseBook.  Every operation leaves the indexes inverse to each
 other and the pool in step with them, on the failing paths too.
 */
module DhcpLeases {
  import opened Bytes
  import opened ClientIds
  import opened DhcpPool
  import opened LeaseBook

  class DHCPLease {
    const clientId: string
    const ipAddress: Address
    const hostname: Option<string>
    var leaseStart: real
    var leaseEnd: real

    constructor (clientId: string, ipAddress: Address, leaseStart: real, leaseEnd: real, hostname: Option<string>)
      ensures this.clientId == clientId && this.ipAddress == ipAddress && this.hostname == hostname
      ensures this.leaseStart == leaseStart && this.leaseEnd == leaseEnd
    {
      this.clientId, this.ipAddress, this.hostname := clientId, ipAddress, hostname;
      this.leaseStart, this.leaseEnd := leaseStart, leaseEnd;
    }

    function Terms(): Binding
      reads this
    {
      Binding(ipAddress, leaseStart, leaseEnd, hostname)
    }

    predicate Expired(now: real)
      reads this
    {
      now >= leaseEnd
    }
  }

  /** Two indexes over the same lease objects, each filing a lease under the name it carries. */
  ghost predicate Inverse(byClient: map<string, DHCPLease>, byIp: map<int, DHCPLease>) {
    && (forall c :: c in byClient ==>
          && byClient[c].clientId == c
          && byClient[c].ipAddress in byIp && byIp[byClient[c].ipAddress] == byClient[c])
    && (forall a :: a in byIp ==>
          && byIp[a].ipAddress == a
          && byIp[a].clientId in byClient && byClient[byIp[a].clientId] == byIp[a])
  }

  lemma InverseAdd(byClient: map<string, DHCPLease>, byIp: map<int, DHCPLease>, lease: DHCPLease)
    requires Inverse(byClient, byIp)
    requires lease.clientId !in byClient && lease.ipAddress !in byIp
    ensures Inverse(byClient[lease.clientId := lease], byIp[lease.ipAddress := lease])
  {
  }

  lemma InverseRemove(byClient: map<string, DHCPLease>, byIp: map<int, DHCPLease>, lease: DHCPLease)
    requires Inverse(byClient, byIp) && lease.clientId in byClient && byClient[lease.clientId] == lease
    ensures Inverse(byClient - {lease.clientId}, byIp - {lease.ipAddress})
  {
  }

  /** The table says of each filed lease object what the object says. */
  ghost predicate Recorded(objects: set<DHCPLease>, byClient: map<string, DHCPLease>, table: Book)
    reads objects
  {
    && table.Keys == byClient.Keys
    && forall c :: c in byClient ==> byClient[c] in objects && byClient[c].Terms() == table[c]
  }

  lemma RecordedAdd(objects: set<DHCPLease>, byClient: map<string, DHCPLease>, table: Book, lease: DHCPLease)
    requires Recorded(objects, byClient, table)
    ensures Recorded(objects + {lease}, byClient[lease.clientId := lease], table[lease.clientId := lease.Terms()])
  {
  }

  lemma RecordedRemove(objects: set<DHCPLease>, byClient: map<string, DHCPLease>, table: Book, c: string)
    requires Recorded(objects, byClient, table)
    ensures Recorded(objects, byClient - {c}, table - {c})
  {
  }

  /** The other leases are recorded in other objects: an object is filed under one name only. */
  lemma RecordedWithout(objects: set<DHCPLease>, byClient: map<string, DHCPLease>, byIp: map<int, DHCPLease>,
                        table: Book, lease: DHCPLease)
    requires Inverse(byClient, byIp) && Recorded(objects, byClient, table)
    requires lease.clientId in byClient && byClient[lease.clientId] == lease
    ensures lease in objects && table.Keys == byClient.Keys
    ensures Recorded(objects - {lease}, byClient - {lease.clientId}, table - {lease.clientId})
  {
  }

  lemma RecordedAgain(objects: set<DHCPLease>, byClient: map<string, DHCPLease>, table: Book, lease: DHCPLease)
    requires lease in objects && lease.clientId in byClient && byClient[lease.clientId] == lease
    requires table.Keys == byClient.Keys
    requires Recorded(objects - {lease}, byClient - {lease.clientId}, table - {lease.clientId})
    ensures Recorded(objects, byClient, table[lease.clientId := lease.Terms()])
  {
    var c := lease.clientId;
    assert forall d :: d in byClient && d != c ==> d in byClient - {c} && d in table - {c};
  }

  lemma TableIsSound(objects: set<DHCPLease>, byClient: map<string, DHCPLease>, byIp: map<int, DHCPLease>,
                     table: Book, area: Area)
    requires Inverse(byClient, byIp) && Recorded(objects, byClient, table)
    requires forall a :: a in byIp ==> Grantable(area, a)
    ensures Sound(area, table) && Taken(table) == byIp.Keys
  {
    forall c, d | c in table && d in table && table[c].ip == table[d].ip
      ensures c == d
    {
      assert byIp[byClient[c].ipAddress] == byClient[c] && byIp[byClient[d].ipAddress] == byClient[d];
    }
    forall a
      ensures a in Taken(table) <==> a in byIp
    {
      if a in byIp {
        var c := byIp[a].clientId;
        assert c in table && table[c].ip == a;
      }
    }
  }

  class DHCPLeaseManager {
    const pool: DHCPAddressPool
    var byClient: map<string, DHCPLease>
    var byIp: map<int, DHCPLease>
    ghost var objects: set<DHCPLease>  // every lease object ever filed
    ghost var table: Book              // the table the two indexes stand for

    /** The indexes are inverse, the table agrees with them, the pool counts exactly the leased addresses. */
    ghost predicate Valid()
      reads this, pool, objects
    {
      && pool.Valid() && pool.leased == byIp.Keys
      && Inverse(byClient, byIp)
      && Recorded(objects, byClient, table)
    }

    /** The outcome of an operation is the one its specification gives; the lease is the filed object. */
    ghost predicate Realizes(c: string, r: Result<DHCPLease, LeaseError>, spec: (Book, Result<Binding, LeaseError>))
      reads this, objects
    {
      && table == spec.0
      && if spec.1.Err? then r == Err(spec.1.error)
         else c in byClient && byClient[c] in objects && r == Ok(byClient[c]) && byClient[c].Terms() == spec.1.value
    }

    ghost function Terrain(): Area
      reads pool
    {
      Area(pool.start, pool.end, pool.reserved)
    }

    constructor (pool: DHCPAddressPool)
      requires pool.Valid() && pool.leased == {}
      ensures Valid() && this.pool == pool && table == map[] && objects == {}
    {
      this.pool := pool;
      byClient, byIp := map[], map[];
      objects, table := {}, map[];
    }

    /** In every reachable state the leases are a sound table and the pool has allocated exactly their addresses. */
    lemma StateIsSound()
      requires Valid()
      ensures Sound(Terrain(), table) && Taken(table) == pool.leased
    {
      assert forall a :: a in byIp ==> a in pool.leased;
      TableIsSound(objects, byClient, byIp, table, Terrain());
    }

    method RemoveLease(lease: DHCPLease)
      requires Valid() && lease.clientId in byClient && byClient[lease.clientId] == lease
      modifies this`byClient, this`byIp, this`table, pool`leased
      ensures Valid()
      ensures byClient == old(byClient) - {lease.clientId}
      ensures table == old(table) - {lease.clientId}
    {
      Unfile(lease);
      hide Inverse, Recorded;
      var released := pool.Release(lease.ipAddress);
    }

    /** The lease leaves both indexes. */
    method Unfile(lease: DHCPLease)
      requires Inverse(byClient, byIp) && Recorded(objects, byClient, table)
      requires lease.clientId in byClient && byClient[lease.clientId] == lease
      modifies this`byClient, this`byIp, this`table
      ensures Inverse(byClient, byIp) && Recorded(objects, byClient, table)
      ensures byClient == old(byClient) - {lease.clientId} && byIp == old(byIp) - {lease.ipAddress}
      ensures table == old(table) - {lease.clientId}
    {
      InverseRemove(byClient, byIp, lease);
      RecordedRemove(objects, byClient, table, lease.clientId);
      hide Inverse, Recorded;
      byClient := byClient - {lease.clientId};
      byIp := byIp - {lease.ipAddress};
      table := table - {lease.clientId};
    }

    method GetByClient(clientId: string, now: real) returns (r: Result<DHCPLease?, LeaseError>)
      requires Valid()
      modifies this`byClient, this`byIp, this`table, pool`leased
      ensures Valid()
      ensures table == if Strip(clientId) == "" then old(table) else DropClient(old(table), Strip(clientId), now)
      ensures r == if Strip(clientId) == "" then Err(EmptyClientId)
                   else if Strip(clientId) in byClient then Ok(byClient[Strip(clientId)]) else Ok(null)
    {
      var c := Strip(clientId);
      if c == "" {
        return Err(EmptyClientId);
      }
      if c !in byClient {
        return Ok(null);
      }
      var lease := byClient[c];
      if lease.Expired(now) {
        RemoveLease(lease);
        return Ok(null);
      }
      return Ok(lease);
    }

    method GetByIp(ipAddress: Address, now: real) returns (r: DHCPLease?)
      requires Valid()
      modifies this`byClient, this`byIp, this`table, pool`leased
      ensures Valid()
      ensures table == DropHolder(old(table), ipAddress, now)
      ensures byClient.Keys <= old(byClient.Keys)
      ensures r == if ipAddress in byIp then byIp[ipAddress] else null
      ensures r != null <==> Held(table, ipAddress)
    {
      if ipAddress !in byIp {
        NoHolder(ipAddress, now);
        return null;
      }
      var lease := byIp[ipAddress];
      OnlyHolder(lease, now);
      if lease.Expired(now) {
        RemoveLease(lease);
        return null;
      }
      return lease;
    }

    lemma NoHolder(ip: int, now: real)
      requires Valid() && ip !in byIp
      ensures !Held(table, ip) && DropHolder(table, ip, now) == table
    {
      assert forall c :: c in table ==> byClient[c].ipAddress != ip;
    }

    lemma OnlyHolder(lease: DHCPLease, now: real)
      requires Valid() && lease.ipAddress in byIp && byIp[lease.ipAddress] == lease
      ensures Held(table, lease.ipAddress)
      ensures !Held(table - {lease.clientId}, lease.ipAddress)
      ensures DropHolder(table, lease.ipAddress, now)
              == if now >= lease.leaseEnd then table - {lease.clientId} else table
    {
      assert table[lease.clientId].ip == lease.ipAddress;
      forall c | c in table && table[c].ip == lease.ipAddress
        ensures c == lease.clientId
      {
        assert byIp[byClient[c].ipAddress] == byClient[c];
      }
    }

    /** Files a new lease under both indexes, once the pool has granted its address. */
    method AddLease(c: string, ip: Address, duration: int, hostname: Option<string>, now: real)
      returns (lease: DHCPLease)
      requires pool.Valid() && ip in pool.leased && c !in byClient && ip !in byIp
      requires pool.leased == byIp.Keys + {ip} && Inverse(byClient, byIp)
      requires Recorded(objects, byClient, table)
      modifies this
      ensures Valid() && fresh(lease) && objects == old(objects) + {lease}
      ensures c in byClient && byClient[c] == lease
      ensures lease.Terms() == Binding(ip, now, now + duration as real, hostname)
      ensures table == old(table)[c := lease.Terms()]
    {
      hide Inverse, Recorded;
      lease := new DHCPLease(c, ip, now, now + duration as real, hostname);
      InverseAdd(byClient, byIp, lease);
      RecordedAdd(objects, byClient, table, lease);
      byClient := byClient[c := lease];
      byIp := byIp[ip := lease];
      table := table[c := lease.Terms()];
      objects := objects + {lease};
    }

    method Create(clientId: string, duration: int, hostname: Option<string>, t0: real, t1: real)
      returns (r: Result<DHCPLease, LeaseError>)
      requires Valid()
      modifies this, pool`leased
      ensures Valid() && fresh(objects - old(objects))
      ensures Realizes(Strip(clientId), r, Created(Terrain(), old(table), Strip(clientId), duration, hostname, t0, t1))
    {
      hide Strip, Inverse, LowestFree;
      var c := Strip(clientId);
      if c == "" {
        return Err(EmptyClientId);
      }
      if duration <= 0 {
        return Err(BadDuration);
      }
      var existing := GetByClient(clientId, t0);
      if existing.value != null {
        return Ok(existing.value);
      }
      r := CreateNew(c, duration, hostname, t1);
    }

    /** A client without a lease gets the least address that is available. */
    method CreateNew(c: string, duration: int, hostname: Option<string>, now: real)
      returns (r: Result<DHCPLease, LeaseError>)
      requires Valid() && c !in byClient
      modifies this, pool`leased
      ensures Valid() && fresh(objects - old(objects))
      ensures var area := Terrain();
              var free := LowestFree(area.lo, area.hi, Taken(old(table)) + area.reserved);
              Realizes(c, r, if free.None? then (old(table), Err(Pool(PoolExhausted)))
                             else Granted(old(table), c, free.value, duration, hostname, now))
    {
      hide Inverse, LowestFree;
      StateIsSound();
      var ip := pool.Allocate();
      if ip.Err? {
        return Err(Pool(ip.error));
      }
      var lease := AddLease(c, ip.value, duration, hostname, now);
      return Ok(lease);
    }

    method Renew(clientId: string, duration: int, t0: real, t1: real) returns (r: Result<DHCPLease, LeaseError>)
      requires Valid()
      modifies this`byClient, this`byIp, this`table, pool`leased, objects
      ensures Valid()
      ensures Realizes(Strip(clientId), r, Renewed(old(table), Strip(clientId), duration, t0, t1))
    {
      hide Strip;
      var c := Strip(clientId);
      if c == "" {
        return Err(EmptyClientId);
      }
      if duration <= 0 {
        return Err(BadDuration);
      }
      if c !in byClient {
        return Err(NotFound);
      }
      var lease := byClient[c];
      if lease.Expired(t0) {
        RemoveLease(lease);
        return Err(Lapsed);
      }
      Restart(lease, t1, duration);
      return Ok(lease);
    }

    /** The shared object is rewritten in place, so both indexes see the new times. */
    method Restart(lease: DHCPLease, now: real, duration: int)
      requires Valid() && lease.clientId in byClient && byClient[lease.clientId] == lease
      modifies this`table, lease
      ensures Valid()
      ensures lease.Terms() == Binding(lease.ipAddress, now, now + duration as real, lease.hostname)
      ensures table == old(table)[lease.clientId := lease.Terms()]
    {
      RecordedWithout(objects, byClient, byIp, table, lease);
      hide Inverse, Recorded;
      lease.leaseStart := now;
      lease.leaseEnd := now + duration as real;
      RecordedAgain(objects, byClient, table, lease);
      table := table[lease.clientId := lease.Terms()];
    }

    method Release(clientId: string) returns (r: Result<bool, LeaseError>)
      requires Valid()
      modifies this`byClient, this`byIp, this`table, pool`leased
      ensures Valid()
      ensures r == if Strip(clientId) == "" then Err(EmptyClientId) else Ok(Strip(clientId) in old(table))
      ensures table == if Strip(clientId) == "" then old(table) else old(table) - {Strip(clientId)}
    {
      var c := Strip(clientId);
      if c == "" {
        return Err(EmptyClientId);
      }
      if c !in byClient {
        return Ok(false);
      }
      RemoveLease(byClient[c]);
      return Ok(true);
    }

    method CreateSpecific(clientId: string, ipAddress: Address, duration: int, hostname: Option<string>,
                          t0: real, t1: real, t2: real)
      returns (r: Result<DHCPLease, LeaseError>)
      requires Valid()
      modifies this, pool`leased, objects
      ensures Valid() && fresh(objects - old(objects))
      ensures Realizes(Strip(clientId), r,
                       CreatedAt(Terrain(), old(table), Strip(clientId), ipAddress, duration, hostname, t0, t1, t2))
    {
      var c := Strip(clientId);
      if c == "" {
        return Err(EmptyClientId);
      }
      if duration <= 0 {
        return Err(BadDuration);
      }
      var existing := GetByClient(clientId, t0);
      StripTwice(clientId);
      r := Rebind(c, existing.value, ipAddress, duration, hostname, t1, t2);
      CreatedAtCases(Terrain(), old(table), c, ipAddress, duration, hostname, t0, t1, t2);
    }

    /** A client that holds the address renews it; one that holds another gives that up first. */
    method Rebind(c: string, existing: DHCPLease?, ipAddress: Address, duration: int, hostname: Option<string>,
                  t0: real, t1: real)
      returns (r: Result<DHCPLease, LeaseError>)
      requires Valid() && Strip(c) == c != "" && duration > 0
      requires existing == if c in byClient then byClient[c] else null
      modifies this, pool`leased, objects
      ensures Valid() && fresh(objects - old(objects))
      ensures Realizes(c, r, if c in old(table) && old(table)[c].ip == ipAddress
                             then Renewed(old(table), c, duration, t0, t1)
                             else Bound(Terrain(), old(table) - {c}, c, ipAddress, duration, hostname, t0, t1))
    {
      hide Inverse, Renewed, Bound;
      if existing != null {
        assert existing.Terms() == table[c];
        if existing.ipAddress == ipAddress {
          r := Renew(c, duration, t0, t1);
          return;
        }
        var released := Release(c);
      } else {
        MinusAbsent(table, c);
      }
      r := BindAddress(c, ipAddress, duration, hostname, t0, t1);
    }

    method BindAddress(c: string, ipAddress: Address, duration: int, hostname: Option<string>, t0: real, t1: real)
      returns (r: Result<DHCPLease, LeaseError>)
      requires Valid() && c !in byClient
      modifies this, pool`leased
      ensures Valid() && fresh(objects - old(objects))
      ensures Realizes(c, r, Bound(Terrain(), old(table), c, ipAddress, duration, hostname, t0, t1))
    {
      var holder := GetByIp(ipAddress, t0);
      BoundCases(Terrain(), old(table), table, c, ipAddress, duration, hostname, t0, t1);
      if holder != null {
        return Err(AlreadyLeased);
      }
      var ip := pool.AllocateSpecific(ipAddress);
      if ip.Err? {
        return Err(Pool(ip.error));
      }
      var lease := AddLease(c, ipAddress, duration, hostname, t1);
      return Ok(lease);
    }

    /** Every lapsed lease goes and no other; the clock is read for each lease in turn. */
    method ExpireLeases(clock: string -> real) returns (removed: nat)
      requires Valid()
      modifies this`byClient, this`byIp, this`table, pool`leased
      ensures Valid()
      ensures table == DropLapsed(old(table), clock)
      ensures removed == |old(table)| - |table|
    {
      var expired := set c | c in byClient && byClient[c].Expired(clock(c));
      MinusLapsed(table, clock, expired);
      RemoveAll(expired);
      removed := |expired|;
    }

    method RemoveAll(clients: set<string>)
      requires Valid() && clients <= table.Keys
      modifies this`byClient, this`byIp, this`table, pool`leased
      ensures Valid() && table == old(table) - clients
    {
      var rest := clients;
      while rest != {}
        invariant Valid() && rest <= byClient.Keys
        invariant rest <= clients && table == old(table) - (clients - rest)
        decreases rest
      {
        var c :| c in rest;
        MinusMore(old(table), clients, rest, c);
        RemoveLease(byClient[c]);
        rest := rest - {c};
      }
      assert clients - rest == clients;
    }

    method Clear()
      requires Valid()
      modifies this`byClient, this`byIp, this`table, pool`leased
      ensures Valid() && table == map[] && pool.leased == {}
    {
      RemoveAll(byClient.Keys);
      StateIsSound();
    }
  }
}
