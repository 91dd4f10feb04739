/**
 How an address passes from one client to another.  The stored rows decide it: the row of a
 lapsed or forgotten lease stays, so only the client itself can make its address free for others.
 */
module DhcpHandover {
  import opened Bytes
  import opened DhcpPriority
  import opened DhcpProtocol
  import opened DhcpReplies
  import opened DhcpRuns
  import opened DhcpSafety
  import opened DhcpStorage
  import opened LeaseBook

  ghost predicate RowHas(s: State, c: string, a: Address) {
    c in s.rows && s.rows[c].ip == a
  }

  /** Every row but that of `c` is as it was, and the row of `c` has not gone. */
  ghost predicate RowsKept(rows: Book, rows': Book, c: string) {
    && (forall d :: d != c ==> (d in rows' <==> d in rows) && (d in rows ==> rows'[d] == rows[d]))
    && (c in rows ==> c in rows')
  }

  // ----- one message -----

  lemma RequestStores(cfg: Config, s: State, c: string, requested: Option<Address>, t: Instants)
    requires Sound(s.area, s.leases) && c != ""
    ensures StoredOrRefused(s, c, RenewOrObtain(cfg, s, c, requested, t))
  {
    hide Obtain, Sound;
    var s0 := s.(leases := DropClient(s.leases, c, t[0]));
    DropKeepsSound(s, c, t[0]);
    if c in s0.leases {
      SettleStores(s, c, Renewed(s.leases, c, cfg.leaseTime, t[1], t[2]));
    } else {
      ObtainStores(cfg, s0, c, requested, t);
    }
  }

  lemma StoredKeepsRows(s: State, c: string, q: (State, Result<Option<Binding>, Failure>))
    requires StoredOrRefused(s, c, q)
    ensures RowsKept(s.rows, q.0.rows, c)
    ensures q.1.Ok? && q.1.value.Some? ==>
              RowHas(q.0, c, q.1.value.value.ip) && !Conflicts(s.rows, c, q.1.value.value.ip)
  {
  }

  /** A message changes no row but that of its sender, which goes only when the sender gives the lease up. */
  lemma DispatchRows(cfg: Config, s: State, m: Message, t: Instants, c: string)
    requires Sound(s.area, s.leases)
    requires c in s.rows && !GivesUp(m, c)
    ensures var rows := Dispatch(cfg, s, m, t).0.rows;
            c in rows && (Sender(m) != Some(c) ==> rows[c] == s.rows[c])
  {
    hide Obtain, RenewOrObtain, Sound;
    match m
    case Discover(d, requested) =>
      if d != "" {
        ObtainStores(cfg, s, d, requested, t);
        StoredKeepsRows(s, d, Obtain(cfg, s, d, requested, t));
      }
    case Request(d, requested, server) =>
      if d != "" {
        RequestStores(cfg, s, d, requested, t);
        StoredKeepsRows(s, d, RenewOrObtain(cfg, s, d, requested, t));
      }
    case _ =>
  }

  /** An answer that carries a lease leaves its address in the row of the sender and found it in no other row. */
  lemma GrantStores(cfg: Config, s: State, m: Message, t: Instants)
    requires Sound(s.area, s.leases)
    requires Dispatch(cfg, s, m, t).1.Answer? && Dispatch(cfg, s, m, t).1.withLease
    ensures Sender(m).Some?
    ensures var (s', v) := Dispatch(cfg, s, m, t);
            RowHas(s', Sender(m).value, v.yiaddr) && !Conflicts(s.rows, Sender(m).value, v.yiaddr)
  {
    hide Obtain, RenewOrObtain, Sound, Conflicts;
    match m
    case Discover(c, requested) =>
      ObtainStores(cfg, s, c, requested, t);
      StoredKeepsRows(s, c, Obtain(cfg, s, c, requested, t));
    case Request(c, requested, server) =>
      RequestStores(cfg, s, c, requested, t);
      StoredKeepsRows(s, c, RenewOrObtain(cfg, s, c, requested, t));
    case _ =>
  }

  // ----- runs -----

  /** Input `i` is a message of client `c` that gives its lease up, or after which another address is stored for it. */
  ghost predicate Leaves(cfg: Config, s: State, i: Input, c: string, a: Address) {
    && i.Datagram? && Read(i.data).Some? && Sender(Read(i.data).value.1) == Some(c)
    && var rows := Next(cfg, s, i).0.rows;
       GivesUp(Read(i.data).value.1, c) || (c in rows && rows[c].ip != a)
  }

  /** The address in a client's row stays there unless the client itself leaves it. */
  lemma NextRow(cfg: Config, s: State, i: Input, c: string, a: Address)
    requires Sound(s.area, s.leases) && RowHas(s, c, a) && !Leaves(cfg, s, i, c, a)
    ensures RowHas(Next(cfg, s, i).0, c, a)
  {
    hide Dispatch, Sound, Read, GivesUp, Sender;
    if i.Datagram? && Read(i.data).Some? {
      var m := Read(i.data).value.1;
      GivesUpOwn(m, c);
      if !GivesUp(m, c) { DispatchRows(cfg, s, m, i.t, c); }
    }
  }

  lemma GivesUpOwn(m: Message, c: string)
    ensures GivesUp(m, c) ==> Sender(m) == Some(c)
  {
  }

  lemma GrantIsStored(cfg: Config, s: State, i: Input, c: string, a: Address)
    requires Sound(s.area, s.leases) && GrantedTo(cfg, s, i, c, a)
    ensures RowHas(Next(cfg, s, i).0, c, a) && !Conflicts(s.rows, c, a)
  {
    hide Dispatch, BuildResponse, Sound, Grants, Conflicts;
    var (p, m) := Read(i.data).value;
    hide Read;
    ReplyGrants(cfg, p, Dispatch(cfg, s, m, i.t).1, a);
    GrantStores(cfg, s, m, i.t);
  }

  lemma {:induction false} RowStays(cfg: Config, s: State, run: seq<Input>, i: nat, j: nat, c: string, a: Address)
    requires Sound(s.area, s.leases) && i <= j <= |run| && RowHas(StateAt(cfg, s, run, i), c, a)
    requires forall k :: i <= k < j ==> !LeavesAt(cfg, s, run, k, c, a)
    ensures RowHas(StateAt(cfg, s, run, j), c, a)
    decreases j - i
  {
    hide RowHas, Leaves, Sound, Next;
    if i == j {
    } else {
      RowStays(cfg, s, run, i, j - 1, c, a);
      RunKeepsSound(cfg, s, run, j - 1);
      assert !LeavesAt(cfg, s, run, j - 1, c, a);
      NextRow(cfg, StateAt(cfg, s, run, j - 1), run[j - 1], c, a);
    }
  }

  ghost predicate LeavesAt(cfg: Config, s: State, run: seq<Input>, k: nat, c: string, a: Address)
    requires k < |run|
  {
    Leaves(cfg, StateAt(cfg, s, run, k), run[k], c, a)
  }

  lemma GrantStoredAt(cfg: Config, s: State, run: seq<Input>, k: nat, c: string, a: Address)
    requires Sound(s.area, s.leases) && k < |run| && GrantedTo(cfg, StateAt(cfg, s, run, k), run[k], c, a)
    ensures RowHas(StateAt(cfg, s, run, k + 1), c, a) && !Conflicts(StateAt(cfg, s, run, k).rows, c, a)
  {
    hide GrantedTo, RowHas, Conflicts, Sound, Next;
    RunKeepsSound(cfg, s, run, k);
    GrantIsStored(cfg, StateAt(cfg, s, run, k), run[k], c, a);
  }

  /**
   An address passes to another client only by an act of the client that had it: between a reply
   that grants an address to one client and a later reply that grants it to another, the first
   client released it, declined it or had another address stored.  That its lease lapsed, was
   swept or was forgotten in a restart is not enough.
   */
  lemma HandoverNeedsOwnMessage(cfg: Config, s: State, run: seq<Input>, i: nat, j: nat, c: string, d: string,
                                a: Address)
    requires Sound(s.area, s.leases) && i < j < |run| && c != d
    requires GrantedTo(cfg, StateAt(cfg, s, run, i), run[i], c, a)
    requires GrantedTo(cfg, StateAt(cfg, s, run, j), run[j], d, a)
    ensures exists k :: i < k < j && LeavesAt(cfg, s, run, k, c, a)
  {
    hide GrantedTo, StateAt, Sound, RowHas, Conflicts, LeavesAt;
    GrantStoredAt(cfg, s, run, i, c, a);
    GrantStoredAt(cfg, s, run, j, d, a);
    HandoverOfRow(cfg, s, run, i, j, c, d, a);
  }

  lemma HandoverOfRow(cfg: Config, s: State, run: seq<Input>, i: nat, j: nat, c: string, d: string, a: Address)
    requires Sound(s.area, s.leases) && i < j < |run| && c != d
    requires RowHas(StateAt(cfg, s, run, i + 1), c, a) && !Conflicts(StateAt(cfg, s, run, j).rows, d, a)
    ensures exists k :: i < k < j && LeavesAt(cfg, s, run, k, c, a)
  {
    hide StateAt, Sound, LeavesAt;
    if forall k :: i < k < j ==> !LeavesAt(cfg, s, run, k, c, a) {
      RowStays(cfg, s, run, i + 1, j, c, a);
    }
  }
}
