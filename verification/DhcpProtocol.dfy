/**
 The message machine of dhcp/server.py on values: what one datagram does to the leases and the
 stored rows, and what is answered.  `Instants` are the clock readings a datagram may cause, in
 the order in which they are taken.
 */
module DhcpProtocol {
  import opened Bytes
  import opened ClientIds
  import opened DhcpOptions
  import opened DhcpPacket
  import opened DhcpReplies
  import opened DhcpReservations
  import opened DhcpStorage
  import opened LeaseBook

  datatype Failure = BadOption(option: OptionError) | BadLease(lease: LeaseError) | StorageRefused | Unpackable

  datatype Outcome = Reply(data: seq<byte>) | Silent | Raised(failure: Failure)

  datatype State = State(area: Area, reservations: map<string, Reservation>, leases: Book, rows: Book)

  type Instants = t: seq<real> | |t| == 7 && forall i, j :: 0 <= i <= j < 7 ==> t[i] <= t[j]
    witness [0.0, 0.0, 0.0, 0.0, 0.0, 0.0, 0.0]

  // ----- reading a datagram -----

  datatype Message =
    | Discover(client: string, requested: Option<Address>)
    | Request(client: string, requested: Option<Address>, server: Option<Address>)
    | Decline(client: string, declined: Option<Address>)
    | Release(client: string)
    | Inform
    | Ignored
    | Malformed(error: OptionError)

  /** Option 61 in hexadecimal when it is present and not empty, else the hardware address. */
  function ClientId(p: Packet, os: seq<Opt>): string
    requires Valid(p)
  {
    var v := ValueOf(os, CLIENT_IDENTIFIER);
    if v.Some? && v.value != [] then Hex(v.value) else Mac(HardwareAddress(p))
  }

  lemma ClientIdIsTrimmed(p: Packet, os: seq<Opt>)
    requires Valid(p)
    ensures Strip(ClientId(p, os)) == ClientId(p, os)
  {
    var v := ValueOf(os, CLIENT_IDENTIFIER);
    if v.Some? && v.value != [] {
      FormsAreTrimmed(v.value);
    } else {
      FormsAreTrimmed(HardwareAddress(p));
    }
  }

  function Classify(p: Packet, os: seq<Opt>): Message
    requires Valid(p)
  {
    var kind := MessageType(os);
    var c, requested, server := ClientId(p, os), AddressOption(os, REQUESTED_IP), AddressOption(os, SERVER_IDENTIFIER);
    if kind.Err? then Malformed(kind.error)
    else if kind.value.None? then Ignored
    else
      match kind.value.value
      case 1 => if requested.Err? then Malformed(requested.error) else Discover(c, requested.value)
      case 3 =>
        if requested.Err? then Malformed(requested.error)
        else if server.Err? then Malformed(server.error)
        else Request(c, requested.value, server.value)
      case 4 => if requested.Err? then Malformed(requested.error) else Decline(c, requested.value)
      case 7 => Release(c)
      case 8 => Inform
      case _ => Ignored
  }

  /** The packet and the message in a datagram; `None` when either codec refuses it. */
  function Read(data: seq<byte>): (r: Option<(Packet, Message)>)
    ensures r.Some? ==> Valid(r.value.0)
  {
    var p := FromBytes(data);
    if p.Err? then None
    else
      var os := ParseFrom(p.value.options);
      if os.Err? then None else Some((p.value, Classify(p.value, os.value)))
  }

  // ----- obtaining a lease -----

  /** A new or existing lease is written to storage; a refused write is an error, and memory keeps the lease. */
  function Persist(s: State, c: string, b: Binding): (State, Result<Option<Binding>, Failure>) {
    var saved := Saved(s.rows, c, b);
    if saved.None? then (s, Err(StorageRefused)) else (s.(rows := saved.value), Ok(Some(b)))
  }

  function Settle(s: State, c: string, r: (Book, Result<Binding, LeaseError>))
    : (State, Result<Option<Binding>, Failure>)
  {
    var s' := s.(leases := r.0);
    if r.1.Err? then (s', Ok(None)) else Persist(s', c, r.1.value)
  }

  function ObtainDynamic(cfg: Config, s: State, c: string, t: Instants): (State, Result<Option<Binding>, Failure>) {
    Settle(s, c, Created(s.area, s.leases, c, cfg.leaseTime, None, t[5], t[6]))
  }

  function ObtainRequested(cfg: Config, s: State, c: string, requested: Option<Address>, t: Instants)
    : (State, Result<Option<Binding>, Failure>)
  {
    if requested.None? then ObtainDynamic(cfg, s, c, t)
    else
      var r := CreatedAt(s.area, s.leases, c, requested.value, cfg.leaseTime, None, t[2], t[3], t[4]);
      if r.1.Ok? then Settle(s, c, r) else ObtainDynamic(cfg, s.(leases := r.0), c, t)
  }

  /** Existing lease, else reservation, else requested address, else the pool. */
  function Obtain(cfg: Config, s: State, c: string, requested: Option<Address>, t: Instants)
    : (State, Result<Option<Binding>, Failure>)
    requires c != ""
  {
    var s0 := s.(leases := DropClient(s.leases, c, t[1]));
    if c in s0.leases then Persist(s0, c, s0.leases[c])
    else if NormalizeClientId(c) in s.reservations then
      var fixed := s.reservations[NormalizeClientId(c)];
      Settle(s0, c, CreatedAt(s.area, s0.leases, c, fixed.ip, cfg.leaseTime, fixed.hostname, t[2], t[3], t[4]))
    else ObtainRequested(cfg, s0, c, requested, t)
  }

  // ----- the handlers -----

  /** What a handler decides; the octets of the answer are built from it and the request alone. */
  datatype Verdict = Answer(kind: byte, yiaddr: Address, withLease: bool) | NoAnswer | Failed(failure: Failure)

  function Decided(kind: byte, refusal: Verdict, r: Result<Option<Binding>, Failure>): Verdict {
    if r.Err? then Failed(r.error)
    else if r.value.None? then refusal
    else Answer(kind, r.value.value.ip, true)
  }

  function HandleDiscover(cfg: Config, s: State, c: string, requested: Option<Address>, t: Instants): (State, Verdict) {
    if c == "" then (s, Failed(BadLease(EmptyClientId)))
    else
      var r := Obtain(cfg, s, c, requested, t);
      (r.0, Decided(OFFER, NoAnswer, r.1))
  }

  /** A client with a live lease renews it, whatever address it asks for; another obtains one. */
  function RenewOrObtain(cfg: Config, s: State, c: string, requested: Option<Address>, t: Instants)
    : (State, Result<Option<Binding>, Failure>)
    requires c != ""
  {
    var s0 := s.(leases := DropClient(s.leases, c, t[0]));
    if c in s0.leases then Settle(s0, c, Renewed(s0.leases, c, cfg.leaseTime, t[1], t[2]))
    else Obtain(cfg, s0, c, requested, t)
  }

  /** A request for another server is not answered; one that cannot be met is refused. */
  function HandleRequest(cfg: Config, s: State, c: string, requested: Option<Address>, server: Option<Address>,
                         t: Instants)
    : (State, Verdict)
  {
    if server.Some? && server.value != cfg.serverIp then (s, NoAnswer)
    else if c == "" then (s, Failed(BadLease(EmptyClientId)))
    else
      var r := RenewOrObtain(cfg, s, c, requested, t);
      (r.0, Decided(ACK, Answer(NAK, 0, false), r.1))
  }

  function HandleDecline(s: State, c: string, declined: Option<Address>, t: Instants): (State, Verdict) {
    if c == "" then (s, Failed(BadLease(EmptyClientId)))
    else
      var s0 := s.(leases := DropClient(s.leases, c, t[0]));
      if c in s0.leases && (declined.None? || declined.value == s0.leases[c].ip)
      then (s0.(leases := s0.leases - {c}, rows := s.rows - {c}), NoAnswer)
      else (s0, NoAnswer)
  }

  /** The stored row goes even when memory holds no lease; errors are only logged. */
  function HandleRelease(s: State, c: string): (State, Verdict) {
    if c == "" then (s, NoAnswer) else (s.(leases := s.leases - {c}, rows := s.rows - {c}), NoAnswer)
  }

  function Dispatch(cfg: Config, s: State, m: Message, t: Instants): (State, Verdict) {
    match m
    case Discover(c, requested) => HandleDiscover(cfg, s, c, requested, t)
    case Request(c, requested, server) => HandleRequest(cfg, s, c, requested, server, t)
    case Decline(c, declined) => HandleDecline(s, c, declined, t)
    case Release(c) => HandleRelease(s, c)
    case Inform => (s, Answer(ACK, 0, false))
    case Ignored => (s, NoAnswer)
    case Malformed(e) => (s, Failed(BadOption(e)))
  }

  function Render(cfg: Config, p: Packet, v: Verdict): Outcome
    requires Valid(p)
  {
    match v
    case Answer(kind, yiaddr, withLease) =>
      var d := BuildResponse(cfg, p, kind, yiaddr, withLease);
      if d.None? then Raised(Unpackable) else Reply(d.value)
    case NoAnswer => Silent
    case Failed(f) => Raised(f)
  }

  /** One datagram: the new state and what is sent back. */
  function Step(cfg: Config, s: State, data: seq<byte>, t: Instants): (State, Outcome) {
    var m := Read(data);
    if m.None? then (s, Silent)
    else
      var r := Dispatch(cfg, s, m.value.1, t);
      (r.0, Render(cfg, m.value.0, r.1))
  }
}
