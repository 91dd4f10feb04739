/** Aggregate counters and one-second history buckets (dns_engine/metrics.py). */
module DnsMetrics {
  const HISTORY_SIZE := 60

  // ----- the sliding window on values -----

  /** Closed buckets, oldest first, then the second that is being counted and its count so far. */
  datatype Buckets = Buckets(history: seq<nat>, second: int, current: nat)

  /** Appending to a bounded deque drops the oldest element when it is full. */
  function Push(history: seq<nat>, n: nat): seq<nat> {
    if |history| < HISTORY_SIZE then history + [n] else history[1..] + [n]
  }

  function CloseOnce(b: Buckets): Buckets {
    b.(history := Push(b.history, b.current), current := 0)
  }

  function Close(b: Buckets, times: nat): Buckets
    decreases times
  {
    if times == 0 then b else Close(CloseOnce(b), times - 1)
  }

  function Elapsed(b: Buckets, now: int): int {
    if now - b.second < HISTORY_SIZE then now - b.second else HISTORY_SIZE
  }

  /** No more than 60 buckets are closed however long nothing was recorded. */
  function Rotate(b: Buckets, now: int): Buckets {
    if now <= b.second then b.(second := now) else Close(b, Elapsed(b, now)).(second := now)
  }

  // ----- counting events -----

  /** The clock was read in this second; `counts` tells whether an event was recorded. */
  datatype Tick = Tick(second: int, counts: bool)

  function Run(origin: int, ticks: seq<Tick>): Buckets {
    if ticks == [] then Buckets([], origin, 0)
    else
      var t := ticks[|ticks| - 1];
      var b := Rotate(Run(origin, ticks[..|ticks| - 1]), t.second);
      if t.counts then b.(current := b.current + 1) else b
  }

  function CountIn(ticks: seq<Tick>, second: int): nat {
    if ticks == [] then 0
    else
      var t := ticks[|ticks| - 1];
      CountIn(ticks[..|ticks| - 1], second) + if t.counts && t.second == second then 1 else 0
  }

  function CountAll(ticks: seq<Tick>): nat {
    if ticks == [] then 0
    else CountAll(ticks[..|ticks| - 1]) + if ticks[|ticks| - 1].counts then 1 else 0
  }

  predicate ClockRuns(origin: int, ticks: seq<Tick>) {
    && (forall i :: 0 <= i < |ticks| ==> origin <= ticks[i].second)
    && forall i, j :: 0 <= i <= j < |ticks| ==> ticks[i].second <= ticks[j].second
  }

  function Latest(origin: int, ticks: seq<Tick>): int {
    if ticks == [] then origin else ticks[|ticks| - 1].second
  }

  /** The `k`-th newest slot: the current bucket, then the closed ones backwards. */
  function Slot(b: Buckets, k: nat): nat
    requires k <= |b.history|
  {
    if k == 0 then b.current else b.history[|b.history| - k]
  }

  function Sum(s: seq<nat>): nat {
    if s == [] then 0 else s[0] + Sum(s[1..])
  }

  // ----- closing buckets -----

  lemma {:induction false} SumAppend(s: seq<nat>, n: nat)
    ensures Sum(s + [n]) == Sum(s) + n
  {
    if s == [] {
      assert s + [n] == [n];
    } else {
      assert (s + [n])[1..] == s[1..] + [n];
      SumAppend(s[1..], n);
    }
  }

  lemma PushSum(history: seq<nat>, n: nat)
    ensures Sum(Push(history, n)) <= Sum(history) + n
  {
    if |history| < HISTORY_SIZE {
      SumAppend(history, n);
    } else {
      SumAppend(history[1..], n);
    }
  }

  /** Closing one bucket moves every slot up by one. */
  lemma ClosedOnce(b: Buckets)
    requires |b.history| <= HISTORY_SIZE
    ensures var c := CloseOnce(b);
            && |c.history| == (if |b.history| < HISTORY_SIZE then |b.history| + 1 else HISTORY_SIZE)
            && c.current == 0 && c.second == b.second
            && forall k :: 1 <= k <= |c.history| ==> Slot(c, k) == Slot(b, k - 1)
  {
  }

  lemma {:induction false} CloseStep(b: Buckets, times: nat)
    ensures Close(b, times) == if times == 0 then b else Close(CloseOnce(b), times - 1)
  {
  }

  lemma {:induction false} CloseShape(b: Buckets, times: nat)
    requires |b.history| <= HISTORY_SIZE
    ensures var c := Close(b, times);
            && |c.history| == (if |b.history| + times <= HISTORY_SIZE then |b.history| + times else HISTORY_SIZE)
            && (forall k :: 1 <= k <= |c.history| ==>
                  Slot(c, k) == if k < times then 0 else if k - times <= |b.history| then Slot(b, k - times) else 0)
            && (times > 0 ==> c.current == 0) && (times == 0 ==> c == b)
            && c.second == b.second
    decreases times
  {
    CloseStep(b, times);
    hide Close, CloseOnce;
    if times == 0 {
    } else {
      ClosedOnce(b);
      CloseShape(CloseOnce(b), times - 1);
    }
  }

  lemma {:induction false} CloseSum(b: Buckets, times: nat)
    ensures Sum(Close(b, times).history) + Close(b, times).current <= Sum(b.history) + b.current
    decreases times
  {
    hide Push, Sum;
    if times == 0 {
    } else {
      PushSum(b.history, b.current);
      CloseSum(CloseOnce(b), times - 1);
    }
  }

  // ----- the window counts events -----

  /** What the buckets say about the events up to `now`: exact for the newest 60 slots. */
  ghost predicate Exact(b: Buckets, origin: int, ticks: seq<Tick>, now: int) {
    && b.second == now >= origin
    && |b.history| == (if now - origin < HISTORY_SIZE then now - origin else HISTORY_SIZE)
    && (forall k :: 0 <= k < HISTORY_SIZE && k <= |b.history| ==> Slot(b, k) == CountIn(ticks, now - k))
    && (|b.history| == HISTORY_SIZE ==> OldestIsSome(b, origin, ticks, now))
    && Sum(b.history) + b.current <= CountAll(ticks)
  }

  /** The 61st slot is the count of some second at least that far back. */
  ghost predicate OldestIsSome(b: Buckets, origin: int, ticks: seq<Tick>, now: int)
    requires |b.history| == HISTORY_SIZE
  {
    exists s :: origin <= s <= now - HISTORY_SIZE && Slot(b, HISTORY_SIZE) == CountIn(ticks, s)
  }

  lemma {:induction false} NothingAfter(ticks: seq<Tick>, second: int)
    requires forall i :: 0 <= i < |ticks| ==> ticks[i].second != second
    ensures CountIn(ticks, second) == 0
  {
    if ticks == [] {
    } else {
      NothingAfter(ticks[..|ticks| - 1], second);
    }
  }

  lemma RotateExact(b: Buckets, origin: int, ticks: seq<Tick>, was: int, now: int)
    requires Exact(b, origin, ticks, was) && was <= now
    requires forall i :: 0 <= i < |ticks| ==> ticks[i].second <= was
    ensures Exact(Rotate(b, now), origin, ticks, now)
  {
    if was < now {
      var times := Elapsed(b, now);
      CloseShape(b, times);
      CloseSum(b, times);
      var c := Rotate(b, now);
      forall k | 0 <= k < HISTORY_SIZE && k <= |c.history|
        ensures Slot(c, k) == CountIn(ticks, now - k)
      {
        assert Slot(c, k) == Slot(Close(b, times), k);
        if now - k > was {
          NothingAfter(ticks, now - k);
        }
      }
      if |c.history| == HISTORY_SIZE {
        RotateOldest(b, origin, ticks, was, now);
      }
    }
  }

  /** After closing buckets for `now` the 61st slot is the bucket of the second `was - k`. */
  lemma OldestSlotBefore(b: Buckets, origin: int, ticks: seq<Tick>, was: int, now: int) returns (k: nat)
    requires Exact(b, origin, ticks, was) && was < now && |Rotate(b, now).history| == HISTORY_SIZE
    ensures k == (if now - was < HISTORY_SIZE then HISTORY_SIZE - (now - was) else 0) && k <= |b.history|
    ensures Slot(Rotate(b, now), HISTORY_SIZE) == Slot(b, k) == CountIn(ticks, was - k)
    ensures origin <= was - k <= now - HISTORY_SIZE
  {
    hide Sum, CountAll, OldestIsSome;
    var times := Elapsed(b, now);
    CloseShape(b, times);
    k := HISTORY_SIZE - times;
    assert Slot(Close(b, times), HISTORY_SIZE) == Slot(b, k);
    hide CountIn, Close;
  }

  lemma RotateOldest(b: Buckets, origin: int, ticks: seq<Tick>, was: int, now: int)
    requires Exact(b, origin, ticks, was) && was < now && |Rotate(b, now).history| == HISTORY_SIZE
    ensures OldestIsSome(Rotate(b, now), origin, ticks, now)
  {
    hide Exact, Rotate, Slot, CountIn;
    var k := OldestSlotBefore(b, origin, ticks, was, now);
  }

  /**
   Of a full ring the 61st slot is the count of its own second exactly when no more than 60
   seconds had passed since the bucket before, or nothing had been counted in that bucket.
   */
  lemma OldestSlotExactly(b: Buckets, origin: int, ticks: seq<Tick>, was: int, now: int)
    requires Exact(b, origin, ticks, was) && was < now && |Rotate(b, now).history| == HISTORY_SIZE
    requires forall i :: 0 <= i < |ticks| ==> ticks[i].second <= was
    ensures Slot(Rotate(b, now), HISTORY_SIZE) == CountIn(ticks, now - HISTORY_SIZE)
            <==> now - was <= HISTORY_SIZE || b.current == 0
  {
    hide Exact, Rotate, CountIn, Close, Elapsed;
    var k := OldestSlotBefore(b, origin, ticks, was, now);
    if now - was > HISTORY_SIZE {
      NothingAfter(ticks, now - HISTORY_SIZE);
    }
  }

  lemma TickExact(b: Buckets, origin: int, before: seq<Tick>, t: Tick)
    requires Exact(b, origin, before, t.second)
    ensures Exact(if t.counts then b.(current := b.current + 1) else b, origin, before + [t], t.second)
  {
    hide Sum, Run;
    var after := before + [t];
    var c := if t.counts then b.(current := b.current + 1) else b;
    TickCounts(before, t);
    forall k | 0 <= k < HISTORY_SIZE && k <= |b.history|
      ensures Slot(c, k) == CountIn(after, t.second - k)
    {
      assert Slot(b, k) == CountIn(before, t.second - k);
    }
    if |b.history| == HISTORY_SIZE {
      var s :| origin <= s <= t.second - HISTORY_SIZE && Slot(b, HISTORY_SIZE) == CountIn(before, s);
      assert Slot(c, HISTORY_SIZE) == CountIn(after, s);
    }
  }

  lemma TickCounts(before: seq<Tick>, t: Tick)
    ensures forall s :: CountIn(before + [t], s) == CountIn(before, s) + if t.counts && t.second == s then 1 else 0
    ensures CountAll(before + [t]) == CountAll(before) + if t.counts then 1 else 0
  {
    assert (before + [t])[..|before|] == before;
  }

  /**
   The lazily rotated ring refines counting: after any events with a clock that does not run
   backwards, and any gaps, slot `k` for `k` below 60 is the number of events in second
   `now - k`; the ring holds min(60, age) closed buckets; its sum never exceeds the total.
   */
  lemma {:induction false} WindowCountsEvents(origin: int, ticks: seq<Tick>)
    requires ClockRuns(origin, ticks)
    ensures Exact(Run(origin, ticks), origin, ticks, Latest(origin, ticks))
  {
    if ticks == [] {
    } else {
      var before, t := ticks[..|ticks| - 1], ticks[|ticks| - 1];
      WindowCountsEvents(origin, before);
      RotateExact(Run(origin, before), origin, before, Latest(origin, before), t.second);
      TickExact(Rotate(Run(origin, before), t.second), origin, before, t);
      assert before + [t] == ticks;
    }
  }

  /** The 61st slot need not be the count of its own second: after a long gap an older one stands there. */
  lemma OldestSlotCanBeStale()
    ensures var ticks := [Tick(0, true), Tick(100, false)];
            var b := Run(0, ticks);
            |b.history| == 60 && Slot(b, 60) == 1 && CountIn(ticks, 100 - 60) == 0
  {
    var ticks := [Tick(0, true), Tick(100, false)];
    assert ticks[..1] == [Tick(0, true)] && ticks[..1][..0] == [];
    var first := Run(0, ticks[..1]);
    assert Run(0, ticks[..1][..0]) == Buckets([], 0, 0);
    assert first == Buckets([], 0, 1);
    CloseShape(first, 60);
    assert Run(0, ticks) == Rotate(first, 100) == Close(first, 60).(second := 100);
    assert Slot(Run(0, ticks), 60) == Slot(Close(first, 60), 60) == Slot(first, 0);
    NothingAfter(ticks, 40);
  }

  // ----- the collector -----

  /** The buckets are the run of these events, and `total` counts them. */
  ghost predicate Follows(b: Buckets, origin: int, ticks: seq<Tick>, total: nat) {
    b == Run(origin, ticks) && b.second == Latest(origin, ticks) && total == CountAll(ticks)
  }

  lemma FollowsOn(b: Buckets, origin: int, ticks: seq<Tick>, total: nat, t: Tick)
    requires Follows(b, origin, ticks, total)
    ensures t.counts ==> Follows(Counted(Rotate(b, t.second)), origin, ticks + [t], total + 1)
    ensures !t.counts ==> Follows(Rotate(b, t.second), origin, ticks + [t], total)
  {
    RunOn(origin, ticks, t);
    RotateSecond(b, t.second);
  }

  lemma RunOn(origin: int, ticks: seq<Tick>, t: Tick)
    ensures var b := Rotate(Run(origin, ticks), t.second);
            Run(origin, ticks + [t]) == if t.counts then Counted(b) else b
    ensures CountAll(ticks + [t]) == CountAll(ticks) + if t.counts then 1 else 0
    ensures Latest(origin, ticks + [t]) == t.second
  {
    assert (ticks + [t])[..|ticks|] == ticks;
  }

  function Counted(b: Buckets): Buckets {
    b.(current := b.current + 1)
  }

  lemma {:induction false} CloseSecond(b: Buckets, times: nat)
    ensures Close(b, times).second == b.second
    decreases times
  {
    if times == 0 {
    } else {
      CloseSecond(CloseOnce(b), times - 1);
    }
  }

  lemma RotateSecond(b: Buckets, now: int)
    ensures Rotate(b, now).second == now
  {
  }

  /** The `k`-th newest entry of a history list. */
  function FromEnd(s: seq<nat>, k: nat): nat
    requires k < |s|
  {
    s[|s| - 1 - k]
  }

  /** The newest `exact` entries of a history list are the counts of the newest seconds. */
  ghost predicate ShowsCounts(recent: seq<nat>, exact: nat, ticks: seq<Tick>, now: int) {
    forall k: nat :: k < |recent| && k < exact ==> FromEnd(recent, k) == CountIn(ticks, now - k)
  }

  /** Whatever the clock does, the ring is bounded and never sums to more than was counted. */
  lemma {:induction false} RunIsBounded(origin: int, ticks: seq<Tick>)
    ensures var b := Run(origin, ticks); |b.history| <= HISTORY_SIZE && Sum(b.history) + b.current <= CountAll(ticks)
  {
    hide Sum, Close;
    if ticks == [] {
      assert Sum([]) == 0 by { NothingSums(); }
    } else {
      var before, t := ticks[..|ticks| - 1], ticks[|ticks| - 1];
      RunIsBounded(origin, before);
      RotateIsBounded(Run(origin, before), t.second);
    }
  }

  lemma NothingSums()
    ensures Sum([]) == 0
  {
  }

  lemma RotateIsBounded(b: Buckets, now: int)
    requires |b.history| <= HISTORY_SIZE
    ensures |Rotate(b, now).history| <= HISTORY_SIZE
    ensures Sum(Rotate(b, now).history) + Rotate(b, now).current <= Sum(b.history) + b.current
  {
    hide Sum, Close;
    if now > b.second {
      CloseShape(b, Elapsed(b, now));
      CloseSum(b, Elapsed(b, now));
    }
  }

  lemma ListedCounts(b: Buckets, origin: int, ticks: seq<Tick>, total: nat)
    requires Follows(b, origin, ticks, total)
    ensures |b.history| <= HISTORY_SIZE && Sum(b.history + [b.current]) <= total
    ensures ClockRuns(origin, ticks) ==>
      && |b.history| == (if b.second - origin < HISTORY_SIZE then b.second - origin else HISTORY_SIZE)
      && ShowsCounts(b.history + [b.current], HISTORY_SIZE, ticks, b.second)
  {
    hide Run, Sum, CountIn, ClockRuns;
    RunIsBounded(origin, ticks);
    SumAppend(b.history, b.current);
    if ClockRuns(origin, ticks) {
      WindowCountsEvents(origin, ticks);
      var recent := b.history + [b.current];
      forall k: nat | k < |recent| && k < HISTORY_SIZE
        ensures FromEnd(recent, k) == CountIn(ticks, b.second - k)
      {
        assert FromEnd(recent, k) == Slot(b, k);
      }
    }
  }

  /** The list without its oldest entry, when there is one too many. */
  function Newest(recent: seq<nat>): seq<nat> {
    if |recent| <= HISTORY_SIZE then recent else recent[|recent| - HISTORY_SIZE..]
  }

  lemma NewestCounts(recent: seq<nat>, ticks: seq<Tick>, now: int)
    requires |recent| <= HISTORY_SIZE + 1
    ensures Sum(Newest(recent)) <= Sum(recent)
    ensures ShowsCounts(recent, HISTORY_SIZE, ticks, now) ==> ShowsCounts(Newest(recent), HISTORY_SIZE, ticks, now)
  {
    if ShowsCounts(recent, HISTORY_SIZE, ticks, now) {
      forall k: nat | k < |Newest(recent)|
        ensures FromEnd(Newest(recent), k) == CountIn(ticks, now - k)
      {
        assert FromEnd(Newest(recent), k) == FromEnd(recent, k);
      }
    }
  }

  datatype Counters = Counters(total: nat, allowed: nat, blocked: nat, cacheHits: nat, cacheMisses: nat,
                               upstreamSuccess: nat, upstreamFailures: nat,
                               noerror: nat, formerr: nat, servfail: nat, nxdomain: nat, other: nat)

  const NO_COUNTS := Counters(0, 0, 0, 0, 0, 0, 0, 0, 0, 0, 0, 0)

  /** The counter of a response code; only its low four bits are looked at. */
  function CountRcode(c: Counters, rcode: int): Counters {
    var r := rcode % 16;
    if r == 0 then c.(noerror := c.noerror + 1)
    else if r == 1 then c.(formerr := c.formerr + 1)
    else if r == 2 then c.(servfail := c.servfail + 1)
    else if r == 3 then c.(nxdomain := c.nxdomain + 1)
    else c.(other := c.other + 1)
  }

  datatype Snapshot = Snapshot(counters: Counters, recentQueries: seq<nat>, recentBlocked: seq<nat>)

  class DNSMetrics {
    var counters: Counters
    var queryHistory: seq<nat>
    var blockedHistory: seq<nat>
    var currentBucketSecond: int
    var currentBucketQueries: nat
    var currentBucketBlocked: nat

    ghost var origin: int               // second of construction or of the last reset
    ghost var queryTicks: seq<Tick>     // every reading of the clock since then, and whether a query was counted
    ghost var blockedTicks: seq<Tick>

    ghost function Queries(): Buckets
      reads this
    {
      Buckets(queryHistory, currentBucketSecond, currentBucketQueries)
    }

    ghost function Blocked(): Buckets
      reads this
    {
      Buckets(blockedHistory, currentBucketSecond, currentBucketBlocked)
    }

    /** The buckets are the run of the recorded events, and the totals count them. */
    ghost predicate Valid()
      reads this
    {
      && Follows(Queries(), origin, queryTicks, counters.total)
      && Follows(Blocked(), origin, blockedTicks, counters.blocked)
    }

    constructor (now: int)
      ensures Valid() && counters == NO_COUNTS && currentBucketSecond == now
    {
      counters := NO_COUNTS;
      queryHistory, blockedHistory := [], [];
      currentBucketSecond, currentBucketQueries, currentBucketBlocked := now, 0, 0;
      origin, queryTicks, blockedTicks := now, [], [];
    }

    method RotateBucket(now: int)
      modifies this`queryHistory, this`blockedHistory, this`currentBucketSecond,
               this`currentBucketQueries, this`currentBucketBlocked
      ensures Queries() == Rotate(old(Queries()), now) && Blocked() == Rotate(old(Blocked()), now)
    {
      if now == currentBucketSecond {
        return;
      }
      var elapsed := now - currentBucketSecond;
      if elapsed > HISTORY_SIZE {
        elapsed := HISTORY_SIZE;
      }
      var i := 0;
      while i < elapsed
        invariant 0 <= i && (i <= elapsed || elapsed < 0)
        invariant currentBucketSecond == old(currentBucketSecond)
        invariant elapsed > 0 ==> Close(Queries(), elapsed - i) == Close(old(Queries()), elapsed)
        invariant elapsed > 0 ==> Close(Blocked(), elapsed - i) == Close(old(Blocked()), elapsed)
        invariant elapsed <= 0 ==> Queries() == old(Queries()) && Blocked() == old(Blocked())
      {
        queryHistory := Push(queryHistory, currentBucketQueries);
        blockedHistory := Push(blockedHistory, currentBucketBlocked);
        currentBucketQueries, currentBucketBlocked := 0, 0;
        i := i + 1;
      }
      currentBucketSecond := now;
    }

    method RecordQuery(now: int)
      requires Valid()
      modifies this
      ensures Valid() && origin == old(origin) && currentBucketSecond == now
      ensures queryTicks == old(queryTicks) + [Tick(now, true)]
      ensures blockedTicks == old(blockedTicks) + [Tick(now, false)]
      ensures counters == old(counters).(total := old(counters).total + 1)
    {
      hide Follows, Rotate;
      FollowsOn(Queries(), origin, queryTicks, counters.total, Tick(now, true));
      FollowsOn(Blocked(), origin, blockedTicks, counters.blocked, Tick(now, false));
      RotateSecond(Queries(), now);
      RotateBucket(now);
      counters := counters.(total := counters.total + 1);
      currentBucketQueries := currentBucketQueries + 1;
      queryTicks, blockedTicks := queryTicks + [Tick(now, true)], blockedTicks + [Tick(now, false)];
    }

    method RecordBlocked(now: int)
      requires Valid()
      modifies this
      ensures Valid() && origin == old(origin) && currentBucketSecond == now
      ensures queryTicks == old(queryTicks) + [Tick(now, false)]
      ensures blockedTicks == old(blockedTicks) + [Tick(now, true)]
      ensures counters == old(counters).(blocked := old(counters).blocked + 1)
    {
      hide Follows, Rotate;
      FollowsOn(Queries(), origin, queryTicks, counters.total, Tick(now, false));
      FollowsOn(Blocked(), origin, blockedTicks, counters.blocked, Tick(now, true));
      RotateSecond(Queries(), now);
      RotateBucket(now);
      counters := counters.(blocked := counters.blocked + 1);
      currentBucketBlocked := currentBucketBlocked + 1;
      queryTicks, blockedTicks := queryTicks + [Tick(now, false)], blockedTicks + [Tick(now, true)];
    }

    /** Any counter that no time series goes with. */
    method Count(updated: Counters)
      requires Valid() && updated.total == counters.total && updated.blocked == counters.blocked
      modifies this`counters
      ensures Valid() && counters == updated
    {
      counters := updated;
    }

    method RecordRcode(rcode: int)
      requires Valid()
      modifies this`counters
      ensures Valid() && counters == CountRcode(old(counters), rcode)
    {
      counters := CountRcode(counters, rcode);
    }

    /**
     The newest 60 query slots and up to 61 blocked slots.  With a clock that did not run
     backwards every query slot is the number of queries in its second, and of the blocked slots
     all but a 61st are.
     */
    method TakeSnapshot(now: int) returns (snap: Snapshot)
      requires Valid()
      modifies this
      ensures Valid() && origin == old(origin) && currentBucketSecond == now
      ensures queryTicks == old(queryTicks) + [Tick(now, false)]
      ensures blockedTicks == old(blockedTicks) + [Tick(now, false)]
      ensures snap.counters == counters == old(counters)
      ensures |snap.recentQueries| <= 60 && |snap.recentBlocked| <= 61
      ensures ClockRuns(origin, queryTicks) ==>
        && |snap.recentQueries| == (if now - origin < 60 then now - origin + 1 else 60)
        && ShowsCounts(snap.recentQueries, 60, queryTicks, now)
      ensures ClockRuns(origin, blockedTicks) ==>
        && |snap.recentBlocked| == (if now - origin < 60 then now - origin + 1 else 61)
        && ShowsCounts(snap.recentBlocked, 60, blockedTicks, now)
      ensures Sum(snap.recentQueries) <= counters.total && Sum(snap.recentBlocked) <= counters.blocked
    {
      hide Follows, ShowsCounts, Sum, Rotate, ClockRuns;
      FollowsOn(Queries(), origin, queryTicks, counters.total, Tick(now, false));
      FollowsOn(Blocked(), origin, blockedTicks, counters.blocked, Tick(now, false));
      RotateSecond(Queries(), now);
      RotateSecond(Blocked(), now);
      RotateBucket(now);
      queryTicks, blockedTicks := queryTicks + [Tick(now, false)], blockedTicks + [Tick(now, false)];
      ListedCounts(Queries(), origin, queryTicks, counters.total);
      ListedCounts(Blocked(), origin, blockedTicks, counters.blocked);
      NewestCounts(queryHistory + [currentBucketQueries], queryTicks, now);
      return Snapshot(counters, Newest(queryHistory + [currentBucketQueries]), blockedHistory + [currentBucketBlocked]);
    }

    method Reset(now: int)
      modifies this
      ensures Valid() && counters == NO_COUNTS && origin == currentBucketSecond == now
      ensures queryTicks == [] && blockedTicks == []
    {
      counters := NO_COUNTS;
      queryHistory, blockedHistory := [], [];
      currentBucketSecond, currentBucketQueries, currentBucketBlocked := now, 0, 0;
      origin, queryTicks, blockedTicks := now, [], [];
    }
  }
}
