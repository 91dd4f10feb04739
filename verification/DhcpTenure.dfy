/** How long leases last: an acknowledged address stays with its client for the whole lease time. */
module DhcpTenure {
  import opened Bytes
  import opened ClientIds
  import opened DhcpPriority
  import opened DhcpProtocol
  import opened DhcpReplies
  import opened DhcpRuns
  import opened DhcpSafety
  import opened LeaseBook

  // ----- one message -----

  /** The lease starts while the message is handled and lasts the configured time. */
  ghost predicate FullTerm(cfg: Config, b: Binding, t: Instants) {
    cfg.leaseTime > 0 && t[0] <= b.start <= t[6] && b.end == b.start + cfg.leaseTime as real
  }

  /** The client has its old lease unchanged, or one for the full term, or none. */
  ghost predicate OldOrFull(cfg: Config, book: Book, book': Book, c: string, t: Instants) {
    c in book' ==> (c in book && book'[c] == book[c]) || FullTerm(cfg, book'[c], t)
  }

  lemma DynamicTerm(cfg: Config, s: State, c: string, t: Instants)
    requires c !in s.leases && c != ""
    ensures OldOrFull(cfg, s.leases, ObtainDynamic(cfg, s, c, t).0.leases, c, t)
  {
    if cfg.leaseTime > 0 { DynamicChooses(s.area, s.leases, c, cfg.leaseTime, t[5], t[6]); }
  }

  lemma SpecificTerm(cfg: Config, s: State, c: string, ip: Address, hostname: Option<string>, t: Instants)
    requires c !in s.leases && c != ""
    ensures var r := CreatedAt(s.area, s.leases, c, ip, cfg.leaseTime, hostname, t[2], t[3], t[4]);
            && OldOrFull(cfg, s.leases, r.0, c, t)
            && (r.1.Err? ==> c !in r.0)
  {
    SpecificChooses(s, c, ip, cfg.leaseTime, hostname, t[2], t[3], t[4]);
  }

  lemma RequestedTerm(cfg: Config, s: State, c: string, requested: Option<Address>, t: Instants)
    requires c !in s.leases && c != ""
    ensures OldOrFull(cfg, s.leases, ObtainRequested(cfg, s, c, requested, t).0.leases, c, t)
  {
    if requested.None? {
      DynamicTerm(cfg, s, c, t);
    } else {
      var r := CreatedAt(s.area, s.leases, c, requested.value, cfg.leaseTime, None, t[2], t[3], t[4]);
      SpecificTerm(cfg, s, c, requested.value, None, t);
      SettleMemory(s, c, r);
      if r.1.Err? { DynamicTerm(cfg, s.(leases := r.0), c, t); }
    }
  }

  /** A client with a live lease keeps it as it is; any other lease obtained is for the full term. */
  lemma ObtainTerm(cfg: Config, s: State, c: string, requested: Option<Address>, t: Instants)
    requires c != ""
    ensures var b := Obtain(cfg, s, c, requested, t).0.leases;
            c in b ==> if Alive(s.leases, c, t[1]) then b[c] == s.leases[c] else FullTerm(cfg, b[c], t)
  {
    var s0 := s.(leases := DropClient(s.leases, c, t[1]));
    if c !in s0.leases {
      if NormalizeClientId(c) in s.reservations {
        var fixed := s.reservations[NormalizeClientId(c)];
        SpecificTerm(cfg, s0, c, fixed.ip, fixed.hostname, t);
        SettleMemory(s0, c, CreatedAt(s.area, s0.leases, c, fixed.ip, cfg.leaseTime, fixed.hostname, t[2], t[3], t[4]));
      } else {
        RequestedTerm(cfg, s0, c, requested, t);
      }
    }
  }

  /** A request that is met leaves the client with a lease for the full term, new or renewed. */
  lemma RequestTerm(cfg: Config, s: State, c: string, requested: Option<Address>, t: Instants)
    requires Sound(s.area, s.leases) && c != ""
    ensures var q := RenewOrObtain(cfg, s, c, requested, t);
            && OldOrFull(cfg, s.leases, q.0.leases, c, t)
            && (q.1.Ok? && q.1.value.Some? ==> c in q.0.leases && FullTerm(cfg, q.0.leases[c], t))
  {
    var s0 := s.(leases := DropClient(s.leases, c, t[0]));
    if c in s0.leases {
      SettleMemory(s, c, Renewed(s.leases, c, cfg.leaseTime, t[1], t[2]));
    } else {
      ObtainTerm(cfg, s0, c, requested, t);
      DropKeepsSound(s, c, t[0]);
      ObtainKeeps(cfg, s0, c, requested, t);
    }
  }

  /** Whatever the message, a lease that it changes or makes is for the full term. */
  lemma DispatchTerms(cfg: Config, s: State, m: Message, t: Instants, d: string)
    requires Sound(s.area, s.leases)
    ensures OldOrFull(cfg, s.leases, Dispatch(cfg, s, m, t).0.leases, d, t)
  {
    hide Obtain, RenewOrObtain, Sound;
    match m
    case Discover(c, requested) =>
      if c != "" {
        ObtainTerm(cfg, s, c, requested, t);
        ObtainKeeps(cfg, s, c, requested, t);
      }
    case Request(c, requested, server) =>
      if c != "" {
        RequestTerm(cfg, s, c, requested, t);
        RenewOrObtainKeeps(cfg, s, c, requested, t);
      }
    case _ =>
  }

  /**
   What an offer is worth: every offer advertises the full lease time, but the lease behind it
   runs that long only when the client had no live lease; a live one is offered as it stands.
   */
  lemma OfferedTerm(cfg: Config, s: State, c: string, requested: Option<Address>, t: Instants)
    requires Sound(s.area, s.leases) && Dispatch(cfg, s, Discover(c, requested), t).1.Answer?
    ensures var b := Dispatch(cfg, s, Discover(c, requested), t).0.leases;
            && c in b
            && (if Alive(s.leases, c, t[1]) then b[c] == s.leases[c] else FullTerm(cfg, b[c], t))
            && (t[0] + cfg.leaseTime as real <= b[c].end
                <==> !Alive(s.leases, c, t[1]) || t[0] + cfg.leaseTime as real <= s.leases[c].end)
  {
    hide Obtain, Sound;
    ObtainTerm(cfg, s, c, requested, t);
    ObtainKeeps(cfg, s, c, requested, t);
  }

  /** The message takes the client's live lease: it releases it, or declines it without naming another address. */
  predicate Surrenders(m: Message, c: string, a: Address) {
    match m
    case Release(d) => d == c
    case Decline(d, declined) => d == c && (declined.None? || declined.value == a)
    case _ => false
  }

  /**
   Giving an address up frees it for everyone else and touches no one else's lease.  A message
   other than a discover or request takes a live lease exactly when its own client surrenders it.
   */
  lemma GivingUpFrees(cfg: Config, s: State, m: Message, t: Instants, c: string)
    requires Sound(s.area, s.leases) && c != "" && Alive(s.leases, c, t[0])
    requires !m.Discover? && !m.Request?
    ensures var (s', v) := Dispatch(cfg, s, m, t);
            var a := s.leases[c].ip;
            && (c !in s'.leases <==> Surrenders(m, c, a))
            && (Surrenders(m, c, a) ==>
                  && s' == s.(leases := s.leases - {c}, rows := s.rows - {c}) && v == NoAnswer
                  && forall d, now :: d != c ==> FreeFor(s', d, a, now))
  {
    var s' := Dispatch(cfg, s, m, t).0;
    var given := s.(leases := s.leases - {c}, rows := s.rows - {c});
    FreedForOthers(s, given, c);
    hide Sound, FreeFor;
    match m
    case Decline(d, declined) =>
      if d == c {
        assert DropClient(s.leases, c, t[0]) == s.leases;
        assert Surrenders(m, c, s.leases[c].ip) ==> s' == given;
        assert !Surrenders(m, c, s.leases[c].ip) ==> s' == s;
      } else {
        assert c in s'.leases;
      }
    case Release(d) =>
      assert d == c ==> s' == given;
      assert d != c ==> c in s'.leases;
    case _ =>
  }

  lemma FreedForOthers(s: State, s': State, c: string)
    requires Sound(s.area, s.leases) && c in s.leases && s'.area == s.area && s'.leases == s.leases - {c}
    ensures forall d, now :: d != c ==> FreeFor(s', d, s.leases[c].ip, now)
  {
  }

  // ----- runs -----

  /** In memory every lease lasts exactly the configured time. */
  ghost predicate AllFull(cfg: Config, book: Book) {
    forall c :: c in book ==> book[c].end == book[c].start + cfg.leaseTime as real
  }

  lemma NextTerms(cfg: Config, s: State, i: Input, d: string)
    requires Sound(s.area, s.leases) && d in Next(cfg, s, i).0.leases
    ensures var b := Next(cfg, s, i).0.leases[d];
            (d in s.leases && b == s.leases[d]) || (i.Datagram? && FullTerm(cfg, b, i.t))
  {
    hide Dispatch, Sound, Read, FullTerm;
    if i.Datagram? && Read(i.data).Some? { DispatchTerms(cfg, s, Read(i.data).value.1, i.t, d); }
  }

  /** In every run from the empty state all leases last exactly the configured time. */
  lemma {:induction false} RunTerms(cfg: Config, s: State, run: seq<Input>, k: nat)
    requires s.leases == map[] && k <= |run|
    ensures AllFull(cfg, StateAt(cfg, s, run, k).leases)
  {
    if k == 0 {
    } else {
      RunTerms(cfg, s, run, k - 1);
      RunKeepsSound(cfg, s, run, k - 1);
      var before, after := StateAt(cfg, s, run, k - 1), StateAt(cfg, s, run, k);
      hide Next;
      forall c | c in after.leases
        ensures after.leases[c].end == after.leases[c].start + cfg.leaseTime as real
      {
        NextTerms(cfg, before, run[k - 1], c);
      }
    }
  }

  /** The client holds the address on a lease that does not end before `end`. */
  ghost predicate HeldUntil(s: State, c: string, a: Address, end: real) {
    c in s.leases && s.leases[c].ip == a && end <= s.leases[c].end
  }

  /** The input releases, declines or forgets the lease of client `c`, or reads the clock at `end` or later. */
  ghost predicate CutsShort(i: Input, c: string, end: real) {
    match i
    case Datagram(data, t) => (Read(data).Some? && GivesUp(Read(data).value.1, c)) || t[6] >= end
    case Sweep(clock) => clock(c) >= end
    case Forget => true
    case _ => false
  }

  lemma NextHolds(cfg: Config, s: State, i: Input, c: string, a: Address, end: real)
    requires Sound(s.area, s.leases) && HeldUntil(s, c, a, end) && !CutsShort(i, c, end)
    requires i.Datagram? ==> end <= i.t[0] + cfg.leaseTime as real
    ensures HeldUntil(Next(cfg, s, i).0, c, a, end)
  {
    hide Next, Sound, Read, GivesUp;
    assert !Ends(s, i, c);
    NextKeepsSound(cfg, s, i);
    NextTerms(cfg, s, i, c);
  }

  /** The reply to input `i` acknowledges a request of client `c` with address `a`. */
  ghost predicate AcknowledgedTo(cfg: Config, s: State, i: Input, c: string, a: Address) {
    GrantedTo(cfg, s, i, c, a) && Read(i.data).value.1.Request?
  }

  lemma AcknowledgedTerm(cfg: Config, s: State, i: Input, c: string, a: Address)
    requires Sound(s.area, s.leases) && AcknowledgedTo(cfg, s, i, c, a)
    ensures HeldUntil(Next(cfg, s, i).0, c, a, i.t[0] + cfg.leaseTime as real)
  {
    hide Obtain, RenewOrObtain, BuildResponse, Sound, Grants;
    GrantIsHeld(cfg, s, i, c, a);
    var (p, m) := Read(i.data).value;
    hide Read;
    ReplyGrants(cfg, p, Dispatch(cfg, s, m, i.t).1, a);
    RequestTerm(cfg, s, c, m.requested, i.t);
  }

  lemma {:induction false} HeldOn(cfg: Config, s: State, run: seq<Input>, i: nat, j: nat, c: string, a: Address,
                                  end: real)
    requires Sound(s.area, s.leases) && i <= j <= |run| && HeldUntil(StateAt(cfg, s, run, i), c, a, end)
    requires forall k :: i <= k < j ==> !CutsShort(run[k], c, end)
    requires forall k :: i <= k < j && run[k].Datagram? ==> end <= run[k].t[0] + cfg.leaseTime as real
    ensures HeldUntil(StateAt(cfg, s, run, j), c, a, end)
    decreases j - i
  {
    hide HeldUntil, CutsShort, Sound, Next;
    if i == j {
    } else {
      HeldOn(cfg, s, run, i, j - 1, c, a, end);
      RunKeepsSound(cfg, s, run, j - 1);
      NextHolds(cfg, StateAt(cfg, s, run, j - 1), run[j - 1], c, a, end);
    }
  }

  /** What an acknowledgement promises holds from the next state of the run on. */
  lemma AcknowledgedAfter(cfg: Config, s: State, run: seq<Input>, k: nat, c: string, a: Address)
    requires Sound(s.area, s.leases) && k < |run| && AcknowledgedTo(cfg, StateAt(cfg, s, run, k), run[k], c, a)
    ensures run[k].Datagram? && HeldUntil(StateAt(cfg, s, run, k + 1), c, a, run[k].t[0] + cfg.leaseTime as real)
  {
    assert run[k].Datagram?;
    hide AcknowledgedTo, HeldUntil, Sound, Next;
    RunKeepsSound(cfg, s, run, k);
    AcknowledgedTerm(cfg, StateAt(cfg, s, run, k), run[k], c, a);
  }

  /** Before another client can hold the address, some input has cut the lease short or reached its end. */
  lemma HandoverNeedsTerm(cfg: Config, s: State, run: seq<Input>, i: nat, j: nat, c: string, d: string, a: Address,
                          end: real)
    requires Sound(s.area, s.leases) && i < j < |run| && c != d
    requires HeldUntil(StateAt(cfg, s, run, i + 1), c, a, end) && HoldsAt(cfg, s, run, j + 1, d, a)
    requires forall k :: i < k <= j && run[k].Datagram? ==> end <= run[k].t[0] + cfg.leaseTime as real
    ensures exists k :: i < k <= j && CutsShort(run[k], c, end)
  {
    hide StateAt, Sound, CutsShort;
    if forall k :: i < k <= j ==> !CutsShort(run[k], c, end) {
      HeldOn(cfg, s, run, i + 1, j + 1, c, a, end);
      OneHolder(cfg, s, run, j + 1, c, d, a);
    }
  }

  /**
   The advertised lease time is kept: once an address is acknowledged to a client, no reply
   grants it to another until that client releases or declines it, the whole lease time has
   passed since the acknowledged request arrived, or all leases are forgotten.
   */
  lemma WholeLeaseTime(cfg: Config, s: State, run: seq<Input>, i: nat, j: nat, c: string, d: string, a: Address)
    requires Sound(s.area, s.leases) && i < j < |run| && c != d
    requires AcknowledgedTo(cfg, StateAt(cfg, s, run, i), run[i], c, a)
    requires GrantedTo(cfg, StateAt(cfg, s, run, j), run[j], d, a)
    requires forall k :: i < k <= j && run[k].Datagram? ==> run[i].t[0] <= run[k].t[0]
    ensures exists k :: i < k <= j && CutsShort(run[k], c, run[i].t[0] + cfg.leaseTime as real)
  {
    hide AcknowledgedTo, GrantedTo, StateAt, Sound, HeldUntil, HoldsAt, CutsShort;
    AcknowledgedAfter(cfg, s, run, i, c, a);
    GrantIsHeldAfter(cfg, s, run, j, d, a);
    HandoverNeedsTerm(cfg, s, run, i, j, c, d, a, run[i].t[0] + cfg.leaseTime as real);
  }
}
