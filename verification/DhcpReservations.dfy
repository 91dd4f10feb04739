/** Static reservations (dhcp/reservation.py): two indexes kept inverse by every operation. */
module DhcpReservations {
  import opened Bytes
  import opened ClientIds

  datatype Reservation = Reservation(clientId: string, ip: Address, hostname: Option<string>)

  datatype ReservationError = BlankClient | ClientTaken | AddressTaken | NoReservation

  /** Each index files a reservation under the name it carries, and they hold the same reservations. */
  ghost predicate Paired(byClient: map<string, Reservation>, byIp: map<Address, Reservation>) {
    && (forall c :: c in byClient ==>
          byClient[c].clientId == c && byClient[c].ip in byIp && byIp[byClient[c].ip] == byClient[c])
    && (forall a :: a in byIp ==>
          byIp[a].ip == a && byIp[a].clientId in byClient && byClient[byIp[a].clientId] == byIp[a])
  }

  lemma PairedAdd(byClient: map<string, Reservation>, byIp: map<Address, Reservation>, r: Reservation)
    requires Paired(byClient, byIp) && r.clientId !in byClient && r.ip !in byIp
    ensures Paired(byClient[r.clientId := r], byIp[r.ip := r])
  {
  }

  lemma PairedRemove(byClient: map<string, Reservation>, byIp: map<Address, Reservation>, r: Reservation)
    requires Paired(byClient, byIp) && r.clientId in byClient && byClient[r.clientId] == r
    ensures Paired(byClient - {r.clientId}, byIp - {r.ip})
  {
  }

  lemma PairedMove(byClient: map<string, Reservation>, byIp: map<Address, Reservation>, was: Reservation,
                   r: Reservation)
    requires Paired(byClient, byIp) && was.clientId == r.clientId
    requires r.clientId in byClient && byClient[r.clientId] == was
    requires r.ip in byIp ==> byIp[r.ip].clientId == r.clientId
    ensures Paired(byClient[r.clientId := r], (byIp - {was.ip})[r.ip := r])
  {
  }

  /** A blank host name is no host name. */
  function CleanHostname(h: Option<string>): Option<string> {
    if h.None? || Strip(h.value) == "" then None else Some(Strip(h.value))
  }

  /** There is a host name exactly when a character other than white space is given. */
  lemma HostnameExactly(h: string)
    ensures CleanHostname(None) == None
    ensures CleanHostname(Some(h)) == if forall i :: 0 <= i < |h| ==> IsSpace(h[i]) then None else Some(Strip(h))
  {
    var lo, hi := StripParts(h);
    if lo < hi {
      assert h[lo] == Strip(h)[0];
    }
    hide Strip, IsSpace;
  }

  class DHCPReservationManager {
    var byClient: map<string, Reservation>
    var byIp: map<Address, Reservation>

    ghost predicate Valid()
      reads this
    {
      Paired(byClient, byIp)
    }

    constructor ()
      ensures Valid() && byClient == map[]
    {
      byClient, byIp := map[], map[];
    }

    method Add(clientId: string, ip: Address, hostname: Option<string>)
      returns (r: Result<Reservation, ReservationError>)
      requires Valid()
      modifies this
      ensures Valid()
      ensures var c := NormalizeClientId(clientId);
              r == if c == "" then Err(BlankClient)
                   else if c in old(byClient) then Err(ClientTaken)
                   else if ip in old(byIp) then Err(AddressTaken)
                   else Ok(Reservation(c, ip, CleanHostname(hostname)))
      ensures byClient == if r.Ok? then old(byClient)[NormalizeClientId(clientId) := r.value] else old(byClient)
      ensures r.Ok? ==> byIp == old(byIp)[ip := r.value]
    {
      var c := NormalizeClientId(clientId);
      if c == "" {
        return Err(BlankClient);
      }
      if c in byClient {
        return Err(ClientTaken);
      }
      if ip in byIp {
        return Err(AddressTaken);
      }
      var reservation := Reservation(c, ip, CleanHostname(hostname));
      PairedAdd(byClient, byIp, reservation);
      byClient := byClient[c := reservation];
      byIp := byIp[ip := reservation];
      return Ok(reservation);
    }

    /** The client keeps its identity; its old address is free again and no other client loses one. */
    method Update(clientId: string, ip: Address, hostname: Option<string>)
      returns (r: Result<Reservation, ReservationError>)
      requires Valid()
      modifies this
      ensures Valid()
      ensures var c := NormalizeClientId(clientId);
              r == if c == "" then Err(BlankClient)
                   else if c !in old(byClient) then Err(NoReservation)
                   else if ip in old(byIp) && old(byIp)[ip].clientId != c then Err(AddressTaken)
                   else Ok(Reservation(c, ip, hostname))
      ensures byClient == if r.Ok? then old(byClient)[NormalizeClientId(clientId) := r.value] else old(byClient)
      ensures r.Ok? ==> byIp.Keys == old(byIp).Keys - {old(byClient)[NormalizeClientId(clientId)].ip} + {ip}
    {
      var c := NormalizeClientId(clientId);
      if c == "" {
        return Err(BlankClient);
      }
      if c !in byClient {
        return Err(NoReservation);
      }
      if ip in byIp && byIp[ip].clientId != c {
        return Err(AddressTaken);
      }
      var reservation := Reservation(c, ip, hostname);
      PairedMove(byClient, byIp, byClient[c], reservation);
      byIp := (byIp - {byClient[c].ip})[ip := reservation];
      byClient := byClient[c := reservation];
      return Ok(reservation);
    }

    method GetByClient(clientId: string) returns (r: Result<Option<Reservation>, ReservationError>)
      ensures r == var c := NormalizeClientId(clientId);
                   if c == "" then Err(BlankClient)
                   else Ok(if c in byClient then Some(byClient[c]) else None)
    {
      var c := NormalizeClientId(clientId);
      if c == "" {
        return Err(BlankClient);
      }
      return Ok(if c in byClient then Some(byClient[c]) else None);
    }

    method RemoveByClient(clientId: string) returns (r: Result<bool, ReservationError>)
      requires Valid()
      modifies this
      ensures Valid()
      ensures var c := NormalizeClientId(clientId);
              && r == (if c == "" then Err(BlankClient) else Ok(c in old(byClient)))
              && byClient == if c == "" then old(byClient) else old(byClient) - {c}
    {
      var c := NormalizeClientId(clientId);
      if c == "" {
        return Err(BlankClient);
      }
      if c !in byClient {
        return Ok(false);
      }
      PairedRemove(byClient, byIp, byClient[c]);
      byIp := byIp - {byClient[c].ip};
      byClient := byClient - {c};
      return Ok(true);
    }

    method RemoveByIp(ip: Address) returns (removed: bool)
      requires Valid()
      modifies this
      ensures Valid() && removed == (ip in old(byIp)) && byIp == old(byIp) - {ip}
      ensures byClient == if removed then old(byClient) - {old(byIp)[ip].clientId} else old(byClient)
    {
      if ip !in byIp {
        return false;
      }
      PairedRemove(byClient, byIp, byIp[ip]);
      byClient := byClient - {byIp[ip].clientId};
      byIp := byIp - {ip};
      return true;
    }

    method Clear()
      modifies this
      ensures Valid() && byClient == map[] && byIp == map[]
    {
      byClient, byIp := map[], map[];
    }
  }
}
