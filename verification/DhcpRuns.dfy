/** Whole runs of the DHCP server: datagrams, sweeps, administration and restarts in any order. */
module DhcpRuns {
  import opened Bytes
  import opened DhcpProtocol
  import opened DhcpReplies
  import opened DhcpReservations
  import opened DhcpSafety
  import opened LeaseBook

  /**
   What may happen to the server between two datagrams.  A sweep reads the clock once for each
   lease.  All leases are forgotten when they are cleared, and when the server is restarted.
   */
  datatype Input =
    | Datagram(data: seq<byte>, t: Instants)
    | Sweep(clock: string -> real)
    | Reserve(address: Address)
    | Unreserve(address: Address)
    | Reservations(table: map<string, Reservation>)
    | Forget

  function Next(cfg: Config, s: State, i: Input): (State, Outcome) {
    match i
    case Datagram(data, t) => Step(cfg, s, data, t)
    case Sweep(clock) => (s.(leases := DropLapsed(s.leases, clock)), Silent)
    case Reserve(a) =>
      if s.area.lo <= a <= s.area.hi && !Held(s.leases, a)
      then (s.(area := s.area.(reserved := s.area.reserved + {a})), Silent) else (s, Silent)
    case Unreserve(a) => (s.(area := s.area.(reserved := s.area.reserved - {a})), Silent)
    case Reservations(table) => (s.(reservations := table), Silent)
    case Forget => (s.(leases := map[]), Silent)
  }

  /** The state before input `k`. */
  function StateAt(cfg: Config, s: State, run: seq<Input>, k: nat): State
    requires k <= |run|
  {
    if k == 0 then s else Next(cfg, StateAt(cfg, s, run, k - 1), run[k - 1]).0
  }

  /** Input `i` ends the lease of client `c`: it is given up or forgotten, or the clock has reached its end. */
  ghost predicate Ends(s: State, i: Input, c: string)
    requires c in s.leases
  {
    match i
    case Datagram(data, t) =>
      (Read(data).Some? && GivesUp(Read(data).value.1, c)) || t[6] >= s.leases[c].end
    case Sweep(clock) => clock(c) >= s.leases[c].end
    case Forget => true
    case _ => false
  }

  /** The reply to input `i` grants address `a` to client `c`. */
  ghost predicate GrantedTo(cfg: Config, s: State, i: Input, c: string, a: Address) {
    && i.Datagram? && Read(i.data).Some? && Sender(Read(i.data).value.1) == Some(c)
    && Next(cfg, s, i).1.Reply? && Grants(Next(cfg, s, i).1.data, a)
  }

  lemma NextKeepsSound(cfg: Config, s: State, i: Input)
    requires Sound(s.area, s.leases)
    ensures var s' := Next(cfg, s, i).0;
            && Sound(s'.area, s'.leases)
            && forall c :: c in s.leases && !Ends(s, i, c) ==> c in s'.leases && s'.leases[c].ip == s.leases[c].ip
  {
    match i
    case Datagram(data, t) =>
      if Read(data).Some? { DispatchGood(cfg, s, Read(data).value.1, t); }
    case Sweep(clock) => SoundShrinks(s.area, s.leases, DropLapsed(s.leases, clock));
    case Reserve(a) =>
    case Unreserve(a) =>
    case Reservations(table) =>
    case Forget =>
  }

  lemma {:induction false} RunKeepsSound(cfg: Config, s: State, run: seq<Input>, k: nat)
    requires Sound(s.area, s.leases) && k <= |run|
    ensures Sound(StateAt(cfg, s, run, k).area, StateAt(cfg, s, run, k).leases)
  {
    if k == 0 {
    } else {
      RunKeepsSound(cfg, s, run, k - 1);
      NextKeepsSound(cfg, StateAt(cfg, s, run, k - 1), run[k - 1]);
    }
  }

  ghost predicate HoldsAt(cfg: Config, s: State, run: seq<Input>, k: nat, c: string, a: Address)
    requires k <= |run|
  {
    c in StateAt(cfg, s, run, k).leases && StateAt(cfg, s, run, k).leases[c].ip == a
  }

  /** Some input after `i`, and not after `j`, ended the lease that client `c` held on `a`. */
  ghost predicate EndedBetween(cfg: Config, s: State, run: seq<Input>, i: nat, j: nat, c: string, a: Address)
    requires j < |run|
  {
    exists k :: i < k <= j && HoldsAt(cfg, s, run, k, c, a) && EndsAt(cfg, s, run, k, c)
  }

  ghost predicate EndsAt(cfg: Config, s: State, run: seq<Input>, k: nat, c: string)
    requires k < |run| && c in StateAt(cfg, s, run, k).leases
  {
    Ends(StateAt(cfg, s, run, k), run[k], c)
  }

  lemma HoldsNext(cfg: Config, s: State, run: seq<Input>, k: nat, c: string, a: Address)
    requires Sound(s.area, s.leases) && k < |run|
    requires HoldsAt(cfg, s, run, k, c, a) && !EndsAt(cfg, s, run, k, c)
    ensures HoldsAt(cfg, s, run, k + 1, c, a)
  {
    RunKeepsSound(cfg, s, run, k);
    NextKeepsSound(cfg, StateAt(cfg, s, run, k), run[k]);
  }

  /** A lease lasts from one input to a later one unless some input in between ends it. */
  lemma {:induction false} HoldsOn(cfg: Config, s: State, run: seq<Input>, i: nat, j: nat, c: string, a: Address)
    requires Sound(s.area, s.leases) && i <= j < |run| && HoldsAt(cfg, s, run, i + 1, c, a)
    requires !EndedBetween(cfg, s, run, i, j, c, a)
    ensures HoldsAt(cfg, s, run, j + 1, c, a)
    decreases j - i
  {
    if i == j {
    } else {
      HoldsOn(cfg, s, run, i, j - 1, c, a);
      HoldsNext(cfg, s, run, j, c, a);
    }
  }

  lemma GrantIsHeld(cfg: Config, s: State, i: Input, c: string, a: Address)
    requires Sound(s.area, s.leases) && GrantedTo(cfg, s, i, c, a)
    ensures var s' := Next(cfg, s, i).0; c in s'.leases && s'.leases[c].ip == a
  {
    var (p, m) := Read(i.data).value;
    var v := Dispatch(cfg, s, m, i.t).1;
    ReplyGrants(cfg, p, v, a);
    GrantNamesHeldAddress(cfg, s, m, i.t);
  }

  lemma GrantIsHeldAfter(cfg: Config, s: State, run: seq<Input>, k: nat, c: string, a: Address)
    requires Sound(s.area, s.leases) && k < |run| && GrantedTo(cfg, StateAt(cfg, s, run, k), run[k], c, a)
    ensures HoldsAt(cfg, s, run, k + 1, c, a)
  {
    RunKeepsSound(cfg, s, run, k);
    GrantIsHeld(cfg, StateAt(cfg, s, run, k), run[k], c, a);
  }

  lemma OneHolder(cfg: Config, s: State, run: seq<Input>, k: nat, c: string, d: string, a: Address)
    requires Sound(s.area, s.leases) && k <= |run| && HoldsAt(cfg, s, run, k, c, a) && HoldsAt(cfg, s, run, k, d, a)
    ensures c == d
  {
    RunKeepsSound(cfg, s, run, k);
  }

  /** Before one client can hold the address of another, some input has ended the other's lease. */
  lemma HandoverNeedsEnd(cfg: Config, s: State, run: seq<Input>, i: nat, j: nat, c: string, d: string, a: Address)
    requires Sound(s.area, s.leases) && i < j < |run| && c != d
    requires HoldsAt(cfg, s, run, i + 1, c, a) && HoldsAt(cfg, s, run, j + 1, d, a)
    ensures EndedBetween(cfg, s, run, i, j, c, a)
  {
    if !EndedBetween(cfg, s, run, i, j, c, a) {
      HoldsOn(cfg, s, run, i, j, c, a);
      OneHolder(cfg, s, run, j + 1, c, d, a);
    }
  }

  /**
   No address is given to two clients: between a reply that grants an address to one client
   and a later reply that grants it to another, the first client released or declined its
   lease on it, the clock reached the end that lease had by then, or all leases were forgotten.
   */
  lemma NoDoubleGrant(cfg: Config, s: State, run: seq<Input>, i: nat, j: nat, c: string, d: string, a: Address)
    requires Sound(s.area, s.leases) && i < j < |run| && c != d
    requires GrantedTo(cfg, StateAt(cfg, s, run, i), run[i], c, a)
    requires GrantedTo(cfg, StateAt(cfg, s, run, j), run[j], d, a)
    ensures EndedBetween(cfg, s, run, i, j, c, a)
  {
    GrantIsHeldAfter(cfg, s, run, i, c, a);
    GrantIsHeldAfter(cfg, s, run, j, d, a);
    HandoverNeedsEnd(cfg, s, run, i, j, c, d, a);
  }
}
