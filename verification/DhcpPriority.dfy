/**
 Which address a client obtains, stated by who holds what when the clock is read, and when the
 stored table refuses it.
 */
module DhcpPriority {
  import opened Bytes
  import opened ClientIds
  import opened DhcpPool
  import opened DhcpProtocol
  import opened DhcpReplies
  import opened DhcpSafety
  import opened DhcpStorage
  import opened LeaseBook

  /** No other client holds a live lease on the address, and the pool may hand it out. */
  ghost predicate FreeFor(s: State, c: string, ip: Address, now: real) {
    Grantable(s.area, ip) && forall d :: d in s.leases && d != c && s.leases[d].ip == ip ==> now >= s.leases[d].end
  }

  /**
   Addresses the pool counts as in use once the client's own lapsed lease is gone: lapsed
   leases of others still count, except one on the requested address.
   */
  ghost function InUse(s: State, c: string, requested: Option<Address>, now: real): set<int> {
    set d | d in s.leases && d != c && !(Some(s.leases[d].ip) == requested && now >= s.leases[d].end) :: s.leases[d].ip
  }

  /** The priorities: live lease, reservation or nothing, requested address if it is free, least free address. */
  ghost function Chosen(cfg: Config, s: State, c: string, requested: Option<Address>, t: Instants): Option<int> {
    if Alive(s.leases, c, t[1]) then Some(s.leases[c].ip)
    else if cfg.leaseTime <= 0 then None
    else if NormalizeClientId(c) in s.reservations then
      var ip := s.reservations[NormalizeClientId(c)].ip;
      if FreeFor(s, c, ip, t[3]) then Some(ip) else None
    else if requested.Some? && FreeFor(s, c, requested.value, t[3]) then Some(requested.value)
    else LowestFree(s.area.lo, s.area.hi, InUse(s, c, requested, t[3]) + s.area.reserved)
  }

  lemma BoundChooses(s: State, c: string, ip: Address, duration: int, hostname: Option<string>, t0: real, t1: real)
    requires c !in s.leases
    ensures var r := Bound(s.area, s.leases, c, ip, duration, hostname, t0, t1);
            && (r.1.Ok? <==> FreeFor(s, c, ip, t0))
            && (r.1.Ok? ==> r.1.value == Binding(ip, t1, t1 + duration as real, hostname)
                            && r.0 == DropHolder(s.leases, ip, t0)[c := r.1.value])
            && (r.1.Err? ==> r.0 == DropHolder(s.leases, ip, t0))
  {
    var b := DropHolder(s.leases, ip, t0);
    if Grantable(s.area, ip) && !FreeFor(s, c, ip, t0) {
      var d :| d in s.leases && d != c && s.leases[d].ip == ip && t0 < s.leases[d].end;
      assert d in b && b[d].ip == ip;
    }
  }

  /** After the requested address has been looked up, the pool counts what `InUse` says. */
  lemma TakenAfterLookup(s: State, c: string, requested: Option<Address>, now: real)
    requires c !in s.leases
    ensures Taken(if requested.Some? then DropHolder(s.leases, requested.value, now) else s.leases)
            == InUse(s, c, requested, now)
  {
    var b := if requested.Some? then DropHolder(s.leases, requested.value, now) else s.leases;
    forall x | x in InUse(s, c, requested, now)
      ensures x in Taken(b)
    {
      var d :| d in s.leases && d != c && s.leases[d].ip == x
               && !(Some(s.leases[d].ip) == requested && now >= s.leases[d].end);
      assert d in b && b[d].ip == x;
    }
    forall x | x in Taken(b)
      ensures x in InUse(s, c, requested, now)
    {
      var d :| d in b && b[d].ip == x;
      assert d in s.leases && d != c;
    }
  }

  lemma SpecificChooses(s: State, c: string, ip: Address, duration: int, hostname: Option<string>, t0: real,
                        t1: real, t2: real)
    requires c !in s.leases && c != ""
    ensures var r := CreatedAt(s.area, s.leases, c, ip, duration, hostname, t0, t1, t2);
            && (r.1.Ok? <==> duration > 0 && FreeFor(s, c, ip, t1))
            && (r.1.Ok? ==> r.1.value == Binding(ip, t2, t2 + duration as real, hostname)
                            && c in r.0 && r.0[c] == r.1.value)
            && (r.1.Err? ==> r.0 == if duration > 0 then DropHolder(s.leases, ip, t1) else s.leases)
  {
    if duration > 0 {
      MinusAbsent(s.leases, c);
      BoundChooses(s, c, ip, duration, hostname, t1, t2);
    }
  }

  lemma DynamicChooses(area: Area, book: Book, c: string, duration: int, t0: real, t1: real)
    requires c !in book && c != "" && duration > 0
    ensures var r := Created(area, book, c, duration, None, t0, t1);
            var free := LowestFree(area.lo, area.hi, Taken(book) + area.reserved);
            && (r.1.Ok? <==> free.Some?)
            && (r.1.Ok? ==> r.1.value == Binding(free.value, t1, t1 + duration as real, None)
                            && c in r.0 && r.0[c] == r.1.value)
            && (r.1.Err? ==> r.0 == book)
  {
  }

  /** The address a client ends up with in memory, and that it gets none when none is chosen. */
  ghost predicate Gets(s': State, c: string, chosen: Option<int>) {
    if chosen.None? then c !in s'.leases else c in s'.leases && s'.leases[c].ip == chosen.value
  }

  lemma SettleMemory(s: State, c: string, r: (Book, Result<Binding, LeaseError>))
    ensures Settle(s, c, r).0.leases == r.0
    ensures Settle(s, c, r).1 == Ok(None) <==> r.1.Err?
    ensures Settle(s, c, r).1.Err? <==> r.1.Ok? && Conflicts(s.rows, c, r.1.value.ip)
  {
  }

  lemma RequestedChooses(cfg: Config, s: State, c: string, requested: Option<Address>, t: Instants)
    requires c !in s.leases && c != ""
    ensures var q := ObtainRequested(cfg, s, c, requested, t);
            var chosen := if cfg.leaseTime <= 0 then None
                          else if requested.Some? && FreeFor(s, c, requested.value, t[3]) then Some(requested.value)
                          else LowestFree(s.area.lo, s.area.hi, InUse(s, c, requested, t[3]) + s.area.reserved);
            Gets(q.0, c, chosen) && (q.1 == Ok(None) <==> chosen.None?)
  {
    if requested.Some? {
      var ip := requested.value;
      var r := CreatedAt(s.area, s.leases, c, ip, cfg.leaseTime, None, t[2], t[3], t[4]);
      SpecificChooses(s, c, ip, cfg.leaseTime, None, t[2], t[3], t[4]);
      SettleMemory(s, c, r);
      if r.1.Err? && cfg.leaseTime > 0 {
        DynamicChooses(s.area, r.0, c, cfg.leaseTime, t[5], t[6]);
        TakenAfterLookup(s, c, requested, t[3]);
        SettleMemory(s.(leases := r.0), c, Created(s.area, r.0, c, cfg.leaseTime, None, t[5], t[6]));
      }
    } else if cfg.leaseTime > 0 {
      DynamicChooses(s.area, s.leases, c, cfg.leaseTime, t[5], t[6]);
      TakenAfterLookup(s, c, requested, t[3]);
      SettleMemory(s, c, Created(s.area, s.leases, c, cfg.leaseTime, None, t[5], t[6]));
    }
  }

  /**
   Obtaining a lease follows the priorities: the client holds exactly the chosen address
   afterwards, and is told that there is none exactly when none is chosen.
   */
  lemma ObtainChooses(cfg: Config, s: State, c: string, requested: Option<Address>, t: Instants)
    requires c != ""
    ensures var q := Obtain(cfg, s, c, requested, t);
            && Gets(q.0, c, Chosen(cfg, s, c, requested, t))
            && (q.1 == Ok(None) <==> Chosen(cfg, s, c, requested, t).None?)
  {
    var s0 := s.(leases := DropClient(s.leases, c, t[1]));
    if c !in s0.leases {
      SameForOthers(s, s0, c, requested, t[3]);
      if NormalizeClientId(c) in s.reservations {
        var fixed := s.reservations[NormalizeClientId(c)];
        SpecificChooses(s0, c, fixed.ip, cfg.leaseTime, fixed.hostname, t[2], t[3], t[4]);
        SettleMemory(s0, c, CreatedAt(s.area, s0.leases, c, fixed.ip, cfg.leaseTime, fixed.hostname, t[2], t[3], t[4]));
      } else {
        RequestedChooses(cfg, s0, c, requested, t);
      }
    }
  }

  lemma SameForOthers(s: State, s0: State, c: string, requested: Option<Address>, now: real)
    requires s0.area == s.area
    requires forall d :: d != c ==>
                           (d in s0.leases <==> d in s.leases) && (d in s.leases ==> s0.leases[d] == s.leases[d])
    ensures forall ip: Address :: FreeFor(s0, c, ip, now) <==> FreeFor(s, c, ip, now)
    ensures InUse(s0, c, requested, now) == InUse(s, c, requested, now)
  {
  }

  /** A client that gets nothing has taken nothing from anyone: whatever went had lapsed. */
  lemma NothingLostWithoutLease(cfg: Config, s: State, c: string, requested: Option<Address>, t: Instants)
    requires Sound(s.area, s.leases) && c != "" && Obtain(cfg, s, c, requested, t).1 == Ok(None)
    ensures var b := Obtain(cfg, s, c, requested, t).0.leases;
            && (forall d :: d in b ==> d in s.leases && b[d] == s.leases[d])
            && (forall d :: d in s.leases && d !in b ==> t[6] >= s.leases[d].end)
  {
    ObtainChooses(cfg, s, c, requested, t);
    ObtainKeeps(cfg, s, c, requested, t);
  }

  // ----- when the stored table refuses -----

  ghost predicate StoredOrRefused(s: State, c: string, q: (State, Result<Option<Binding>, Failure>)) {
    if q.1 == Ok(None) then q.0.rows == s.rows
    else
      && c in q.0.leases
      && if Conflicts(s.rows, c, q.0.leases[c].ip) then q.1 == Err(StorageRefused) && q.0.rows == s.rows
         else q.1 == Ok(Some(q.0.leases[c])) && q.0.rows == s.rows[c := q.0.leases[c]]
  }

  lemma SettleStores(s: State, c: string, r: (Book, Result<Binding, LeaseError>))
    requires r.1.Ok? ==> c in r.0 && r.0[c] == r.1.value
    ensures StoredOrRefused(s, c, Settle(s, c, r))
  {
  }

  lemma ObtainStores(cfg: Config, s: State, c: string, requested: Option<Address>, t: Instants)
    requires Sound(s.area, s.leases) && c != ""
    ensures StoredOrRefused(s, c, Obtain(cfg, s, c, requested, t))
  {
    var s0 := s.(leases := DropClient(s.leases, c, t[1]));
    DropKeepsSound(s, c, t[1]);
    if c in s0.leases {
      PersistKeepsMemory(s0, c, s0.leases[c]);
    } else if NormalizeClientId(c) in s.reservations {
      var fixed := s.reservations[NormalizeClientId(c)];
      CreatedAtKeepsSound(s.area, s0.leases, c, fixed.ip, cfg.leaseTime, fixed.hostname, t[2], t[3], t[4]);
      SettleStores(s0, c, CreatedAt(s.area, s0.leases, c, fixed.ip, cfg.leaseTime, fixed.hostname, t[2], t[3], t[4]));
    } else {
      RequestedStores(cfg, s0, c, requested, t);
    }
  }

  lemma RequestedStores(cfg: Config, s: State, c: string, requested: Option<Address>, t: Instants)
    requires Sound(s.area, s.leases)
    ensures StoredOrRefused(s, c, ObtainRequested(cfg, s, c, requested, t))
  {
    var s1 := s;
    if requested.Some? {
      CreatedAtKeepsSound(s.area, s.leases, c, requested.value, cfg.leaseTime, None, t[2], t[3], t[4]);
      var r := CreatedAt(s.area, s.leases, c, requested.value, cfg.leaseTime, None, t[2], t[3], t[4]);
      SettleStores(s, c, r);
      s1 := s.(leases := r.0);
    }
    CreatedKeepsSound(s.area, s1.leases, c, cfg.leaseTime, None, t[5], t[6]);
    SettleStores(s1, c, Created(s.area, s1.leases, c, cfg.leaseTime, None, t[5], t[6]));
  }

  /** The row of another client names the address that the priorities choose. */
  ghost predicate RowHeldByOther(s: State, c: string, chosen: Option<int>) {
    chosen.Some? && exists d :: d in s.rows && d != c && s.rows[d].ip == chosen.value
  }

  /** Obtaining a lease is refused exactly when another client's row names the address that is chosen. */
  lemma RefusedExactly(cfg: Config, s: State, c: string, requested: Option<Address>, t: Instants)
    requires Sound(s.area, s.leases) && c != ""
    ensures Obtain(cfg, s, c, requested, t).1.Err? <==> RowHeldByOther(s, c, Chosen(cfg, s, c, requested, t))
    ensures Obtain(cfg, s, c, requested, t).1.Err? ==> Obtain(cfg, s, c, requested, t).1 == Err(StorageRefused)
  {
    hide Obtain, Chosen, Sound;
    ObtainChooses(cfg, s, c, requested, t);
    ObtainStores(cfg, s, c, requested, t);
    GetsOrNothing(s, Obtain(cfg, s, c, requested, t), c, Chosen(cfg, s, c, requested, t));
  }

  lemma GetsOrNothing(s: State, q: (State, Result<Option<Binding>, Failure>), c: string, chosen: Option<int>)
    requires Gets(q.0, c, chosen) && (q.1 == Ok(None) <==> chosen.None?) && StoredOrRefused(s, c, q)
    ensures q.1.Err? <==> RowHeldByOther(s, c, chosen)
    ensures q.1.Err? ==> q.1 == Err(StorageRefused)
  {
  }

  /**
   The address a request is for: the live lease, when it is still live and the lease time
   allows renewing it, and nothing otherwise; without a live lease the address of the priorities.
   */
  ghost function ChosenByRequest(cfg: Config, s: State, c: string, requested: Option<Address>, t: Instants)
    : Option<int>
  {
    if !Alive(s.leases, c, t[0]) then Chosen(cfg, s, c, requested, t)
    else if cfg.leaseTime > 0 && t[1] < s.leases[c].end then Some(s.leases[c].ip)
    else None
  }

  /** A lapsed lease of the client itself makes no difference to the choice. */
  lemma ChosenAfterDrop(cfg: Config, s: State, c: string, requested: Option<Address>, t: Instants)
    requires !Alive(s.leases, c, t[0])
    ensures Chosen(cfg, s.(leases := DropClient(s.leases, c, t[0])), c, requested, t) == Chosen(cfg, s, c, requested, t)
  {
    SameForOthers(s, s.(leases := DropClient(s.leases, c, t[0])), c, requested, t[3]);
  }

  /** What obtaining or renewing comes to, by the address chosen and the rows before the call. */
  ghost predicate Settles(s: State, c: string, chosen: Option<int>, q: (State, Result<Option<Binding>, Failure>)) {
    if chosen.None? then q.1 == Ok(None)
    else if RowHeldByOther(s, c, chosen) then q.1 == Err(StorageRefused)
    else q.1.Ok? && q.1.value.Some? && q.1.value.value.ip == chosen.value
  }

  lemma ObtainSettles(cfg: Config, s: State, c: string, requested: Option<Address>, t: Instants)
    requires Sound(s.area, s.leases) && c != ""
    ensures Settles(s, c, Chosen(cfg, s, c, requested, t), Obtain(cfg, s, c, requested, t))
  {
    hide Obtain, Chosen, Sound, RowHeldByOther, StoredOrRefused;
    ObtainChooses(cfg, s, c, requested, t);
    RefusedExactly(cfg, s, c, requested, t);
    ObtainKeeps(cfg, s, c, requested, t);
  }

  lemma RequestSettles(cfg: Config, s: State, c: string, requested: Option<Address>, t: Instants)
    requires Sound(s.area, s.leases) && c != ""
    ensures Settles(s, c, ChosenByRequest(cfg, s, c, requested, t), RenewOrObtain(cfg, s, c, requested, t))
  {
    hide Obtain, Chosen, Sound;
    if Alive(s.leases, c, t[0]) {
      assert DropClient(s.leases, c, t[0]) == s.leases;
      SettleMemory(s, c, Renewed(s.leases, c, cfg.leaseTime, t[1], t[2]));
    } else {
      var s0 := s.(leases := DropClient(s.leases, c, t[0]));
      DropKeepsSound(s, c, t[0]);
      ObtainSettles(cfg, s0, c, requested, t);
      ChosenAfterDrop(cfg, s, c, requested, t);
    }
  }

  /** The answer to a client for whom `chosen` is chosen. */
  ghost predicate Decides(s: State, c: string, chosen: Option<int>, kind: byte, refusal: Verdict, v: Verdict) {
    if chosen.None? then v == refusal
    else if RowHeldByOther(s, c, chosen) then v == Failed(StorageRefused)
    else v.Answer? && v.kind == kind && v.yiaddr == chosen.value && v.withLease
  }

  /**
   What a discover is answered, in terms of who holds what before the call: an offer of the
   chosen address, nothing when none is chosen, and a storage error exactly when another
   client's row names the chosen address.
   */
  lemma DiscoverAnswered(cfg: Config, s: State, c: string, requested: Option<Address>, t: Instants)
    requires Sound(s.area, s.leases) && c != ""
    ensures Decides(s, c, Chosen(cfg, s, c, requested, t), 2, NoAnswer,
                    Dispatch(cfg, s, Discover(c, requested), t).1)
  {
    hide Obtain, Chosen, Sound, RowHeldByOther;
    ObtainSettles(cfg, s, c, requested, t);
  }

  /** The same for a request to this server, which is refused with a NAK when nothing is chosen for it. */
  lemma RequestAnswered(cfg: Config, s: State, c: string, requested: Option<Address>, server: Option<Address>,
                        t: Instants)
    requires Sound(s.area, s.leases) && c != "" && (server.None? || server.value == cfg.serverIp)
    ensures Decides(s, c, ChosenByRequest(cfg, s, c, requested, t), 5, Answer(6, 0, false),
                    Dispatch(cfg, s, Request(c, requested, server), t).1)
  {
    hide RenewOrObtain, ChosenByRequest, Sound, RowHeldByOther;
    RequestSettles(cfg, s, c, requested, t);
  }

  /** When the store is asked to write an address that another client's row has, by the state before the message. */
  ghost predicate MeetsStaleRow(cfg: Config, s: State, m: Message, t: Instants) {
    match m
    case Discover(c, requested) => c != "" && RowHeldByOther(s, c, Chosen(cfg, s, c, requested, t))
    case Request(c, requested, server) =>
      && c != "" && (server.None? || server.value == cfg.serverIp)
      && RowHeldByOther(s, c, ChosenByRequest(cfg, s, c, requested, t))
    case _ => false
  }

  /** Which messages fail in storage: exactly those for which another client's row has the chosen address. */
  lemma MessageRefusedExactly(cfg: Config, s: State, m: Message, t: Instants)
    requires Sound(s.area, s.leases)
    ensures Dispatch(cfg, s, m, t).1 == Failed(StorageRefused) <==> MeetsStaleRow(cfg, s, m, t)
  {
    hide Obtain, RenewOrObtain, Chosen, ChosenByRequest, Sound;
    match m
    case Discover(c, requested) => if c != "" { DiscoverAnswered(cfg, s, c, requested, t); }
    case Request(c, requested, server) =>
      if server.Some? && server.value != cfg.serverIp {
        assert Dispatch(cfg, s, m, t).1 == NoAnswer;
      } else if c != "" {
        RequestAnswered(cfg, s, c, requested, server, t);
      }
    case _ =>
  }
}
