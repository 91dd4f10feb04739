/** The inputs of a run on the objects: the server, its leases and its pool do what `DhcpRuns` says on values. */
module DhcpInputs {
  import opened DhcpProtocol
  import opened DhcpRuns
  import opened DhcpServer
  import opened LeaseBook

  /** Any input but a change of the reservations, which `ReservationsChanged` is about. */
  method Serve(server: DHCPServer, i: Input) returns (out: Outcome)
    requires server.Valid() && !i.Reservations?
    modifies server.leaseManager, server.leaseManager.pool`leased, server.leaseManager.pool`reserved
    modifies server.leaseManager.objects, server.storage
    ensures server.Valid() && fresh(server.leaseManager.objects - old(server.leaseManager.objects))
    ensures (server.Now(), out) == Next(server.config, old(server.Now()), i)
  {
    hide Step, DropLapsed;
    out := Silent;
    match i
    case Datagram(data, t) => out := server.HandlePacket(data, t);
    case Sweep(clock) => var removed := server.leaseManager.ExpireLeases(clock);
    case Reserve(a) => Withhold(server, a);
    case Unreserve(a) => server.leaseManager.pool.Unreserve(a);
    case Forget => server.leaseManager.Clear();
    case Reservations(_) =>
  }

  method Withhold(server: DHCPServer, a: int)
    requires server.Valid()
    modifies server.leaseManager.pool`reserved
    ensures server.Valid()
    ensures var s := old(server.Now());
            server.Now() == if s.area.lo <= a <= s.area.hi && !Held(s.leases, a)
                            then s.(area := s.area.(reserved := s.area.reserved + {a})) else s
  {
    var refused := server.leaseManager.pool.Reserve(a);
  }

  /** Whatever the reservation manager does, its new table is all that the server sees of it. */
  twostate lemma ReservationsChanged(server: DHCPServer)
    requires old(server.Valid()) && server.reservations.Valid()
    requires unchanged(server.leaseManager, server.leaseManager.pool, server.storage)
    requires unchanged(old(server.leaseManager.objects))
    ensures server.Valid()
    ensures (server.Now(), Silent)
            == Next(server.config, old(server.Now()), Reservations(server.reservations.byClient))
  {
  }
}
