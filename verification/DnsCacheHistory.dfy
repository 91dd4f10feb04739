/**
 The working-set property of the cache over all histories.  The history alone says what was
 last stored for a domain and which other domains were touched since; the cache is proved to
 answer accordingly.
 */
module DnsCacheHistory {
  import opened Bytes
  import opened DnsCache

  datatype Op =
    | Find(domain: string, now: real)
    | Put(domain: string, response: seq<byte>, now: real)
    | RemoveExpired(now: real)
    | Clear(now: real)

  function Apply(c: Cache, op: Op): Cache {
    match op
    case Find(d, now) => Lookup(c, d, now).0
    case Put(d, response, now) => Store(c, d, response, now)
    case RemoveExpired(now) => Sweep(c, now)
    case Clear(now) => EMPTY_CACHE
  }

  /** The cache before operation `k` of a history that begins with an empty cache. */
  function CacheAt(ops: seq<Op>, k: nat): Cache
    requires k <= |ops|
  {
    if k == 0 then EMPTY_CACHE else Apply(CacheAt(ops, k - 1), ops[k - 1])
  }

  predicate ClockAscends(ops: seq<Op>) {
    forall i, j :: 0 <= i <= j < |ops| ==> ops[i].now <= ops[j].now
  }

  /** Operation `k` stores or hits domain `d`. */
  predicate Touches(ops: seq<Op>, k: nat, d: string)
    requires k < |ops|
  {
    match ops[k]
    case Put(e, response, now) => e == d && response != []
    case Find(e, now) => e == d && Lookup(CacheAt(ops, k), e, now).1.Some?
    case _ => false
  }

  /** The last response stored for `d` before operation `k`, and when, since the last clearing. */
  function LastStored(ops: seq<Op>, k: nat, d: string): Option<(seq<byte>, real)>
    requires k <= |ops|
  {
    if k == 0 || ops[k - 1].Clear? then None
    else if ops[k - 1].Put? && ops[k - 1].domain == d && ops[k - 1].response != []
    then Some((ops[k - 1].response, ops[k - 1].now))
    else LastStored(ops, k - 1, d)
  }

  /** The other domains stored or hit since `d` itself was last stored or hit. */
  function OthersSince(ops: seq<Op>, k: nat, d: string): set<string>
    requires k <= |ops|
  {
    if k == 0 || Touches(ops, k - 1, d) then {}
    else
      var before := OthersSince(ops, k - 1, d);
      if (ops[k - 1].Put? || ops[k - 1].Find?) && Touches(ops, k - 1, ops[k - 1].domain)
      then before + {ops[k - 1].domain} else before
  }

  /** The domains behind `d` in the order, that is, more recent than it. */
  function Newer(order: seq<string>, d: string): set<string> {
    if order == [] then {}
    else if order[0] == d then set e | e in order[1..]
    else Newer(order[1..], d)
  }

  // ----- facts about the order -----

  lemma {:induction false} NewerWithout(order: seq<string>, gone: set<string>, d: string)
    requires d !in gone && Distinct(order)
    ensures Newer(Without(order, gone), d) <= Newer(order, d)
  {
    if order == [] {
    } else {
      WithoutMembers(order[1..], gone);
      NewerWithout(order[1..], gone, d);
      if order[0] !in gone {
        assert Without(order, gone)[1..] == Without(order[1..], gone);
      } else {
        assert Without(order, gone) == Without(order[1..], gone);
      }
    }
  }

  lemma {:induction false} NewerAppend(order: seq<string>, e: string, d: string)
    requires d != e
    ensures Newer(order + [e], d) <= Newer(order, d) + {e}
  {
    if order == [] {
      assert (order + [e])[1..] == [];
    } else {
      assert (order + [e])[1..] == order[1..] + [e];
      NewerAppend(order[1..], e, d);
    }
  }

  lemma {:induction false} NewerLast(order: seq<string>, d: string)
    requires d !in order
    ensures Newer(order + [d], d) == {}
  {
    assert order + [d] != [];
    if order != [] {
      assert (order + [d])[1..] == order[1..] + [d];
      assert order == [order[0]] + order[1..];
      NewerLast(order[1..], d);
    } else {
      assert (order + [d])[1..] == [];
    }
  }

  lemma {:induction false} NewerDrop(order: seq<string>, n: nat, d: string)
    requires n <= |order| && d in order[n..] && Distinct(order)
    ensures Newer(order[n..], d) == Newer(order, d)
  {
    if n > 0 {
      assert order[1..][n - 1..] == order[n..];
      assert order[0] !in order[n..];
      NewerDrop(order[1..], n - 1, d);
    } else {
      assert order[0..] == order;
    }
  }

  /** A domain that is popped has a whole cache of more recent domains behind it. */
  lemma {:induction false} NewerThanPopped(order: seq<string>, n: nat, d: string)
    requires Distinct(order) && n <= |order| && d in order[..n]
    ensures forall e :: e in order[n..] ==> e in Newer(order, d)
  {
    if order[0] == d {
      assert forall e :: e in order[n..] ==> e in order[1..];
    } else {
      var i :| 0 <= i < n && order[i] == d;
      assert order[1..][..n - 1][i - 1] == d;
      assert order[1..][n - 1..] == order[n..];
      NewerThanPopped(order[1..], n - 1, d);
    }
  }

  lemma {:induction false} DistinctCount(s: seq<string>)
    requires Distinct(s)
    ensures |set e | e in s| == |s|
  {
    if s == [] {
    } else {
      var front, last := s[..|s| - 1], s[|s| - 1];
      DistinctCount(front);
      assert s == front + [last];
      assert last !in front;
      forall e
        ensures e in s <==> e in front || e == last
      {
        assert e in front + [last] <==> e in front || e == last;
      }
      assert (set e | e in s) == (set e | e in front) + {last};
    }
  }

  // ----- the invariant -----

  /** What is cached for `d` is what the history says was last stored for it. */
  ghost predicate Remembers(c: Cache, d: string, last: Option<(seq<byte>, real)>) {
    d in c.entries ==>
      && last.Some?
      && c.entries[d].response == last.value.0 && c.entries[d].expiresAt == last.value.1 + DEFAULT_TTL
  }

  /** A stored domain has no more domains behind it than were touched since, or has lapsed, or was crowded out. */
  ghost predicate Accounted(c: Cache, d: string, last: Option<(seq<byte>, real)>, others: set<string>, lapsed: bool) {
    if d in c.entries then Newer(c.order, d) <= others
    else last.Some? ==> lapsed || |others| >= MAX_CACHE_SIZE
  }

  /** By operation `k` the clock has reached the end of the entry last stored for `d`. */
  ghost predicate LapsedBy(ops: seq<Op>, k: nat, d: string)
    requires k <= |ops|
  {
    k > 0 && LastStored(ops, k, d).Some? && ops[k - 1].now >= LastStored(ops, k, d).value.1 + DEFAULT_TTL
  }

  ghost predicate Inv(ops: seq<Op>, k: nat, d: string)
    requires k <= |ops|
  {
    var c := CacheAt(ops, k);
    && Consistent(c)
    && Remembers(c, d, LastStored(ops, k, d))
    && Accounted(c, d, LastStored(ops, k, d), OthersSince(ops, k, d), LapsedBy(ops, k, d))
  }

  /** Moving `e` to the end puts at most `e` behind another domain, and nothing behind itself. */
  lemma MoveToEndNewer(order: seq<string>, e: string, d: string)
    requires Distinct(order)
    ensures d != e ==> Newer(Without(order, {e}) + [e], d) <= Newer(order, d) + {e}
    ensures Newer(Without(order, {e}) + [e], e) == {}
  {
    WithoutMembers(order, {e});
    if d != e {
      NewerWithout(order, {e}, d);
      NewerAppend(Without(order, {e}), e, d);
    }
    NewerLast(Without(order, {e}), e);
  }

  lemma FindStep(c: Cache, e: string, now: real, d: string, last: Option<(seq<byte>, real)>, others: set<string>,
                 lapsed: bool)
    requires Consistent(c) && Remembers(c, d, last) && Accounted(c, d, last, others, lapsed)
    ensures var (c', r) := Lookup(c, e, now);
            && Remembers(c', d, last)
            && Accounted(c', d, last, if r.None? then others else if e == d then {} else others + {e},
                         lapsed || (d == e && last.Some? && now >= last.value.1 + DEFAULT_TTL))
  {
    MoveToEndNewer(c.order, e, d);
    if d != e {
      NewerWithout(c.order, {e}, d);
    }
    if d != e && d !in c.entries {
      CountGrows(others, e);
    }
  }

  lemma CountGrows(s: set<string>, e: string)
    ensures |s + {e}| >= |s|
  {
    assert s + {e} == if e in s then s else s + {e};
    if e in s { assert s + {e} == s; }
  }

  /** Storing a domain may pop another, but only one that a whole cache of touched domains has overtaken. */
  lemma PutStep(c: Cache, e: string, response: seq<byte>, now: real, d: string, last: Option<(seq<byte>, real)>,
                others: set<string>, lapsed: bool)
    requires Consistent(c) && Remembers(c, d, last) && Accounted(c, d, last, others, lapsed) && response != []
    ensures var c' := Store(c, e, response, now);
            && Remembers(c', d, if e == d then Some((response, now)) else last)
            && Accounted(c', d, if e == d then Some((response, now)) else last,
                         if e == d then {} else others + {e}, lapsed)
  {
    StoreConsistent(c, e, response, now);
    MoveToEndNewer(c.order, e, d);
    MovedToEnd(c.order, e);
    var order := Without(c.order, {e}) + [e];
    if d == e {
      StoredIsNewest(c, e, response, now);
    } else if d in c.entries {
      PoppedIsOvertaken(order, d, others + {e});
    } else {
      CountGrows(others, e);
    }
  }

  lemma StoredIsNewest(c: Cache, e: string, response: seq<byte>, now: real)
    requires Consistent(c) && response != []
    ensures var c' := Store(c, e, response, now); e in c'.entries && Newer(c'.order, e) == {}
  {
    hide Newer, Without;
    var order := Without(c.order, {e}) + [e];
    StoreConsistent(c, e, response, now);
    MoveToEndNewer(c.order, e, e);
    MovedToEnd(c.order, e);
    if |order| > MAX_CACHE_SIZE {
      NewerDrop(order, |order| - MAX_CACHE_SIZE, e);
    }
  }

  lemma PoppedIsOvertaken(order: seq<string>, d: string, others: set<string>)
    requires Distinct(order) && d in order && Newer(order, d) <= others
    ensures if d in Youngest(order) then Newer(Youngest(order), d) <= others else |others| >= MAX_CACHE_SIZE
  {
    hide Newer, Distinct;
    if |order| > MAX_CACHE_SIZE {
      var n := |order| - MAX_CACHE_SIZE;
      if d in order[n..] {
        NewerDrop(order, n, d);
      } else {
        OvertakenByMany(order, n, d, others);
      }
    }
  }

  lemma OvertakenByMany(order: seq<string>, n: nat, d: string, others: set<string>)
    requires Distinct(order) && d in order && Newer(order, d) <= others
    requires n <= |order| && d !in order[n..]
    ensures |others| >= |order| - n
  {
    DistinctPart(order, n);
    hide Newer, Distinct;
    assert order == order[..n] + order[n..];
    NewerThanPopped(order, n, d);
    DistinctCount(order[n..]);
    SubsetCount((set e | e in order[n..]), others);
  }

  lemma DistinctPart(order: seq<string>, n: nat)
    requires Distinct(order) && n <= |order|
    ensures Distinct(order[n..])
  {
  }

  lemma SubsetCount(a: set<string>, b: set<string>)
    requires a <= b
    ensures |a| <= |b|
  {
    assert b == a + (b - a);
  }

  lemma SweepStep(c: Cache, now: real, d: string, last: Option<(seq<byte>, real)>, others: set<string>, lapsed: bool)
    requires Consistent(c) && Remembers(c, d, last) && Accounted(c, d, last, others, lapsed)
    ensures var c' := Sweep(c, now);
            && Remembers(c', d, last)
            && Accounted(c', d, last, others, lapsed || (last.Some? && now >= last.value.1 + DEFAULT_TTL))
  {
    var gone := set e | e in c.entries && c.entries[e].expiresAt <= now;
    if d !in gone {
      NewerWithout(c.order, gone, d);
    }
  }

  lemma InvStart(ops: seq<Op>, d: string)
    ensures Inv(ops, 0, d)
  {
  }

  lemma {:induction false} InvHolds(ops: seq<Op>, k: nat, d: string)
    requires ClockAscends(ops) && k <= |ops|
    ensures Inv(ops, k, d)
  {
    hide Inv;
    if k == 0 {
      InvStart(ops, d);
    } else {
      InvHolds(ops, k - 1, d);
      InvNext(ops, k - 1, d);
    }
  }

  lemma ClearStep(d: string, others: set<string>, lapsed: bool)
    ensures Consistent(EMPTY_CACHE) && Remembers(EMPTY_CACHE, d, None)
    ensures Accounted(EMPTY_CACHE, d, None, others, lapsed)
  {
  }

  lemma EmptyNotStored(c: Cache, e: string, now: real)
    ensures Store(c, e, [], now) == c
  {
  }

  lemma InvNext(ops: seq<Op>, k: nat, d: string)
    requires ClockAscends(ops) && k < |ops| && Inv(ops, k, d)
    ensures Inv(ops, k + 1, d)
  {
    hide Consistent, Lookup, Store, Sweep, Remembers, Newer, Youngest, Without;
    var c, last, others, lapsed := CacheAt(ops, k), LastStored(ops, k, d), OthersSince(ops, k, d), LapsedBy(ops, k, d);
    match ops[k]
    case Find(e, now) =>
      LookupConsistent(c, e, now);
      FindStep(c, e, now, d, last, others, lapsed);
    case Put(e, response, now) =>
      StoreConsistent(c, e, response, now);
      if response != [] {
        PutStep(c, e, response, now, d, last, others, lapsed);
      } else {
        EmptyNotStored(c, e, now);
      }
    case RemoveExpired(now) =>
      SweepConsistent(c, now);
      SweepStep(c, now, d, last, others, lapsed);
    case Clear(now) => ClearStep(d, OthersSince(ops, k + 1, d), LapsedBy(ops, k + 1, d));
  }

  /**
   A hit returns the last non-empty response stored for the domain since the last clearing, and
   does so less than 300 seconds after it was stored.
   */
  lemma HitReturnsLastStored(ops: seq<Op>, k: nat)
    requires ClockAscends(ops) && k < |ops| && ops[k].Find?
    requires Lookup(CacheAt(ops, k), ops[k].domain, ops[k].now).1.Some?
    ensures var last := LastStored(ops, k, ops[k].domain);
            && last.Some? && ops[k].now < last.value.1 + 300.0
            && Lookup(CacheAt(ops, k), ops[k].domain, ops[k].now).1 == Some(last.value.0)
  {
    InvHolds(ops, k, ops[k].domain);
  }

  /**
   A domain stored less than 300 seconds ago, with no clearing since, misses only if at least
   10000 distinct other domains were stored or hit since it was last stored or hit itself.
   */
  lemma WorkingSet(ops: seq<Op>, k: nat)
    requires ClockAscends(ops) && k < |ops| && ops[k].Find?
    requires var last := LastStored(ops, k, ops[k].domain);
             last.Some? && ops[k].now < last.value.1 + 300.0
    requires Lookup(CacheAt(ops, k), ops[k].domain, ops[k].now).1.None?
    ensures |OthersSince(ops, k, ops[k].domain)| >= 10000
  {
    InvHolds(ops, k, ops[k].domain);
  }
}
