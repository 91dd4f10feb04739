/** While no lease lapses or is forgotten, the stored rows are the leases in memory and no write is refused. */
module DhcpMirror {
  import opened Bytes
  import opened DhcpProtocol
  import opened DhcpReplies
  import opened DhcpRuns
  import opened DhcpSafety
  import opened DhcpPriority
  import opened DhcpStorage
  import opened LeaseBook

  /** Leases are not forgotten, and none has reached its end at any reading of the clock that the input causes. */
  ghost predicate Quiet(s: State, i: Input) {
    match i
    case Datagram(data, t) => AllLive(s, t[6])
    case Sweep(clock) => forall d :: d in s.leases ==> clock(d) < s.leases[d].end
    case Forget => false
    case _ => true
  }

  ghost predicate AllLive(s: State, now: real) {
    forall d :: d in s.leases ==> now < s.leases[d].end
  }

  lemma NoConflictInMemory(area: Area, book: Book, c: string, rows: Book)
    requires Sound(area, book) && c in book
    requires forall d :: d in rows && d != c ==> d in book && book[d].ip == rows[d].ip
    ensures !Conflicts(rows, c, book[c].ip)
  {
  }

  lemma ObtainMirrors(cfg: Config, s: State, c: string, requested: Option<Address>, t: Instants)
    requires Sound(s.area, s.leases) && c != "" && s.rows == s.leases && AllLive(s, t[6])
    ensures var q := Obtain(cfg, s, c, requested, t); q.0.rows == q.0.leases && q.1.Ok?
  {
    var q := Obtain(cfg, s, c, requested, t);
    ObtainKeeps(cfg, s, c, requested, t);
    ObtainStores(cfg, s, c, requested, t);
    ObtainChooses(cfg, s, c, requested, t);
    MirrorFromStores(s, q, c, Chosen(cfg, s, c, requested, t), t[6]);
  }

  lemma MirrorFromStores(s: State, q: (State, Result<Option<Binding>, Failure>), c: string, chosen: Option<int>,
                         now: real)
    requires s.rows == s.leases && AllLive(s, now)
    requires ObtainGood(s, q.0, c, q.1, now) && KeptOrLapsed(s.leases, q.0.leases, c, now)
    requires StoredOrRefused(s, c, q) && Gets(q.0, c, chosen) && (q.1 == Ok(None) <==> chosen.None?)
    ensures q.0.rows == q.0.leases && q.1.Ok?
  {
    if q.1 == Ok(None) {
      assert q.0.leases == s.leases;
    } else {
      NoConflictInMemory(s.area, q.0.leases, c, s.rows);
      assert s.rows[c := q.0.leases[c]] == q.0.leases;
    }
  }

  lemma RenewOrObtainMirrors(cfg: Config, s: State, c: string, requested: Option<Address>, t: Instants)
    requires Sound(s.area, s.leases) && c != "" && s.rows == s.leases && AllLive(s, t[6])
    ensures var q := RenewOrObtain(cfg, s, c, requested, t); q.0.rows == q.0.leases && q.1.Ok?
  {
    if c in s.leases {
      NoConflictInMemory(s.area, s.leases, c, s.rows);
    } else {
      ObtainMirrors(cfg, s, c, requested, t);
    }
  }

  lemma DispatchMirrors(cfg: Config, s: State, m: Message, t: Instants)
    requires Sound(s.area, s.leases) && s.rows == s.leases && AllLive(s, t[6])
    ensures var r := Dispatch(cfg, s, m, t); r.0.rows == r.0.leases && r.1 != Failed(StorageRefused)
  {
    match m
    case Discover(c, requested) => if c != "" { ObtainMirrors(cfg, s, c, requested, t); }
    case Request(c, requested, server) => if c != "" { RenewOrObtainMirrors(cfg, s, c, requested, t); }
    case _ =>
  }

  lemma NextMirrors(cfg: Config, s: State, i: Input)
    requires Sound(s.area, s.leases) && s.rows == s.leases && Quiet(s, i)
    ensures var r := Next(cfg, s, i); r.0.rows == r.0.leases && r.1 != Raised(StorageRefused)
  {
    hide Dispatch, Sound, Read;
    match i
    case Datagram(data, t) =>
      if Read(data).Some? { DispatchMirrors(cfg, s, Read(data).value.1, t); }
    case Sweep(clock) => assert DropLapsed(s.leases, clock) == s.leases;
    case _ =>
  }

  /**
   In every run from the empty state in which no lease lapses or is forgotten, the stored rows
   equal the leases in memory, field by field, after every input, and no write is ever refused.
   */
  lemma {:induction false} RunMirrors(cfg: Config, s: State, run: seq<Input>, k: nat)
    requires s.leases == map[] && s.rows == map[] && k <= |run|
    requires forall j :: 0 <= j < k ==> Quiet(StateAt(cfg, s, run, j), run[j])
    ensures StateAt(cfg, s, run, k).rows == StateAt(cfg, s, run, k).leases
    ensures k > 0 ==> Next(cfg, StateAt(cfg, s, run, k - 1), run[k - 1]).1 != Raised(StorageRefused)
  {
    hide Next, Quiet, Sound;
    if k == 0 {
    } else {
      RunMirrors(cfg, s, run, k - 1);
      RunKeepsSound(cfg, s, run, k - 1);
      NextMirrors(cfg, StateAt(cfg, s, run, k - 1), run[k - 1]);
    }
  }

  /** So a refused write is the trace of a lease that lapsed or was forgotten: at that input or at an earlier one. */
  lemma RefusalNeedsLapse(cfg: Config, s: State, run: seq<Input>, k: nat)
    requires s.leases == map[] && s.rows == map[] && k < |run|
    requires Next(cfg, StateAt(cfg, s, run, k), run[k]).1 == Raised(StorageRefused)
    ensures exists j :: 0 <= j <= k && !Quiet(StateAt(cfg, s, run, j), run[j])
  {
    hide Next, Quiet;
    if forall j :: 0 <= j <= k ==> Quiet(StateAt(cfg, s, run, j), run[j]) {
      RunMirrors(cfg, s, run, k + 1);
    }
  }
}
