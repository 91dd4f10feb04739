/** The response cache (dns_engine/cache.py): least recently used order, expiry and counters. */
module DnsCache {
  import opened Bytes

  const DEFAULT_TTL: real := 300.0
  const MAX_CACHE_SIZE: nat := 10000

  datatype Entry = Entry(response: seq<byte>, expiresAt: real, hits: nat)

  /** The ordered dictionary, oldest domain first, and the two counters. */
  datatype Cache = Cache(order: seq<string>, entries: map<string, Entry>, hits: nat, misses: nat)

  predicate Distinct(s: seq<string>) {
    forall i, j :: 0 <= i < j < |s| ==> s[i] != s[j]
  }

  ghost predicate Consistent(c: Cache) {
    && Distinct(c.order) && |c.order| <= MAX_CACHE_SIZE
    && forall d :: d in c.entries <==> d in c.order
  }

  /** The order with the domains in `gone` taken out. */
  function Without(order: seq<string>, gone: set<string>): seq<string> {
    if order == [] then []
    else (if order[0] in gone then [] else [order[0]]) + Without(order[1..], gone)
  }

  /** The last `MAX_CACHE_SIZE` domains: what is left when the oldest have been popped. */
  function Youngest(order: seq<string>): seq<string> {
    if |order| <= MAX_CACHE_SIZE then order else order[|order| - MAX_CACHE_SIZE..]
  }

  function Restricted(entries: map<string, Entry>, order: seq<string>): map<string, Entry> {
    map d | d in entries && d in order :: entries[d]
  }

  function Lookup(c: Cache, domain: string, now: real): (Cache, Option<seq<byte>>) {
    if domain !in c.entries then (c.(misses := c.misses + 1), None)
    else if now >= c.entries[domain].expiresAt then
      (Cache(Without(c.order, {domain}), c.entries - {domain}, c.hits, c.misses + 1), None)
    else
      var e := c.entries[domain];
      (Cache(Without(c.order, {domain}) + [domain], c.entries[domain := e.(hits := e.hits + 1)], c.hits + 1, c.misses),
       Some(e.response))
  }

  function Store(c: Cache, domain: string, response: seq<byte>, now: real): Cache {
    if response == [] then c
    else
      var order := Without(c.order, {domain}) + [domain];
      var entries := c.entries[domain := Entry(response, now + DEFAULT_TTL, 0)];
      c.(order := Youngest(order), entries := Restricted(entries, Youngest(order)))
  }

  function Sweep(c: Cache, now: real): Cache {
    var gone := set d | d in c.entries && c.entries[d].expiresAt <= now;
    c.(order := Without(c.order, gone), entries := c.entries - gone)
  }

  const EMPTY_CACHE := Cache([], map[], 0, 0)

  // ----- facts about the order -----

  lemma {:induction false} WithoutMembers(order: seq<string>, gone: set<string>)
    ensures forall d :: d in Without(order, gone) <==> d in order && d !in gone
    ensures |Without(order, gone)| <= |order|
  {
    if order == [] {
    } else {
      WithoutMembers(order[1..], gone);
      assert order == [order[0]] + order[1..];
    }
  }

  lemma {:induction false} WithoutDistinct(order: seq<string>, gone: set<string>)
    requires Distinct(order)
    ensures Distinct(Without(order, gone))
  {
    if order == [] {
    } else {
      WithoutDistinct(order[1..], gone);
      WithoutMembers(order[1..], gone);
      var rest := Without(order[1..], gone);
      assert order[0] !in order[1..];
      assert forall j :: 0 <= j < |rest| ==> rest[j] in rest;
    }
  }

  lemma {:induction false} WithoutNone(order: seq<string>, gone: set<string>)
    requires forall d :: d in order ==> d !in gone
    ensures Without(order, gone) == order
  {
    if order == [] {
    } else {
      assert order == [order[0]] + order[1..];
      WithoutNone(order[1..], gone);
    }
  }

  /** Taking out a domain that is there leaves room for it at the end. */
  lemma {:induction false} WithoutShorter(order: seq<string>, d: string)
    requires d in order
    ensures |Without(order, {d})| < |order|
  {
    WithoutMembers(order[1..], {d});
    if order[0] != d {
      assert d in order[1..] by { assert order == [order[0]] + order[1..]; }
      WithoutShorter(order[1..], d);
    }
  }

  lemma MovedToEnd(order: seq<string>, d: string)
    requires Distinct(order)
    ensures Distinct(Without(order, {d}) + [d])
    ensures forall e :: e in Without(order, {d}) + [d] <==> e in order || e == d
    ensures |Without(order, {d}) + [d]| <= |order| + 1
    ensures d in order ==> |Without(order, {d}) + [d]| <= |order|
  {
    WithoutMembers(order, {d});
    WithoutDistinct(order, {d});
    var rest := Without(order, {d});
    assert forall j :: 0 <= j < |rest| ==> rest[j] in rest;
    if d in order {
      WithoutShorter(order, d);
    }
  }

  lemma YoungestDistinct(order: seq<string>)
    requires Distinct(order)
    ensures Distinct(Youngest(order)) && |Youngest(order)| <= MAX_CACHE_SIZE
    ensures forall d :: d in Youngest(order) ==> d in order
  {
  }

  /** Every operation keeps order and entries in step and the size within its bound. */
  lemma LookupConsistent(c: Cache, domain: string, now: real)
    requires Consistent(c)
    ensures Consistent(Lookup(c, domain, now).0)
  {
    MovedToEnd(c.order, domain);
    WithoutMembers(c.order, {domain});
    WithoutDistinct(c.order, {domain});
  }

  lemma StoreConsistent(c: Cache, domain: string, response: seq<byte>, now: real)
    requires Consistent(c)
    ensures Consistent(Store(c, domain, response, now))
    ensures response != [] ==> var entries := Store(c, domain, response, now).entries;
              domain in entries && entries[domain] == Entry(response, now + DEFAULT_TTL, 0)
  {
    MovedToEnd(c.order, domain);
    var order := Without(c.order, {domain}) + [domain];
    YoungestDistinct(order);
    assert Youngest(order)[|Youngest(order)| - 1] == domain;
  }

  lemma SweepConsistent(c: Cache, now: real)
    requires Consistent(c)
    ensures Consistent(Sweep(c, now))
  {
    var gone := set d | d in c.entries && c.entries[d].expiresAt <= now;
    WithoutMembers(c.order, gone);
    WithoutDistinct(c.order, gone);
  }

  // ----- the object -----

  class DNSCache {
    var order: seq<string>
    var entries: map<string, Entry>
    var hits: nat
    var misses: nat

    ghost function Now(): Cache
      reads this
    {
      Cache(order, entries, hits, misses)
    }

    ghost predicate Valid()
      reads this
    {
      Consistent(Now())
    }

    constructor ()
      ensures Valid() && Now() == EMPTY_CACHE
    {
      order, entries, hits, misses := [], map[], 0, 0;
    }

    method Remove(domain: string)
      modifies this`order, this`entries
      ensures order == Without(old(order), {domain}) && entries == old(entries) - {domain}
    {
      order := Without(order, {domain});
      entries := entries - {domain};
    }

    method MoveToEnd(domain: string)
      modifies this`order
      ensures order == Without(old(order), {domain}) + [domain]
    {
      order := Without(order, {domain}) + [domain];
    }

    method Find(domain: string, now: real) returns (r: Option<seq<byte>>)
      requires Valid()
      modifies this
      ensures Valid() && (Now(), r) == Lookup(old(Now()), domain, now)
    {
      hide Without, Consistent;
      LookupConsistent(Now(), domain, now);
      if domain !in entries {
        misses := misses + 1;
        return None;
      }
      var entry := entries[domain];
      if now >= entry.expiresAt {
        Remove(domain);
        misses := misses + 1;
        return None;
      }
      entries := entries[domain := entry.(hits := entry.hits + 1)];
      hits := hits + 1;
      MoveToEnd(domain);
      return Some(entry.response);
    }

    /** A new domain goes to the end, then the oldest are popped until the size is within its bound. */
    method Put(domain: string, response: seq<byte>, now: real)
      requires Valid()
      modifies this
      ensures Valid() && Now() == Store(old(Now()), domain, response, now)
    {
      StoreConsistent(Now(), domain, response, now);
      MovedToEnd(order, domain);
      if |response| == 0 {
        return;
      }
      entries := entries[domain := Entry(response, now + DEFAULT_TTL, 0)];
      MoveToEnd(domain);
      Evict();
    }

    method Evict()
      requires Distinct(order) && forall d :: d in entries <==> d in order
      modifies this`order, this`entries
      ensures order == Youngest(old(order))
      ensures entries == Restricted(old(entries), Youngest(old(order)))
    {
      ghost var popped: nat := 0;
      assert entries == Restricted(entries, order) && order == order[0..];
      while |order| > MAX_CACHE_SIZE
        invariant popped <= |old(order)| && order == old(order)[popped..]
        invariant popped > 0 ==> |order| >= MAX_CACHE_SIZE
        invariant entries == Restricted(old(entries), order)
        decreases |order|
      {
        PopFront(old(order), popped, old(entries));
        entries := entries - {order[0]};
        order := order[1..];
        popped := popped + 1;
      }
    }

    method Clear()
      modifies this
      ensures Valid() && Now() == EMPTY_CACHE
    {
      order, entries, hits, misses := [], map[], 0, 0;
    }

    method RemoveExpired(now: real) returns (removed: nat)
      requires Valid()
      modifies this
      ensures Valid() && Now() == Sweep(old(Now()), now)
      ensures removed == |old(entries)| - |entries|
    {
      SweepConsistent(Now(), now);
      var expired := set d | d in entries && entries[d].expiresAt <= now;
      assert entries.Keys == (entries - expired).Keys + expired;
      removed := |expired|;
      RemoveAll(expired);
    }

    method RemoveAll(domains: set<string>)
      modifies this`order, this`entries
      ensures order == Without(old(order), domains) && entries == old(entries) - domains
    {
      var rest := domains;
      ghost var gone: set<string> := {};
      WithoutNone(order, {});
      while rest != {}
        invariant rest + gone == domains
        invariant order == Without(old(order), gone) && entries == old(entries) - gone
        decreases rest
      {
        var d :| d in rest;
        WithoutMore(old(order), gone, d);
        OneFewerEntry(old(entries), gone, d);
        Remove(d);
        rest, gone := rest - {d}, gone + {d};
      }
    }
  }

  lemma OneFewerEntry(m: map<string, Entry>, gone: set<string>, d: string)
    ensures (m - gone) - {d} == m - (gone + {d})
  {
  }

  lemma PopFront(all: seq<string>, popped: nat, filed: map<string, Entry>)
    requires Distinct(all) && popped < |all|
    ensures var order := all[popped..];
            Restricted(filed, order) - {order[0]} == Restricted(filed, order[1..])
    ensures all[popped..][1..] == all[popped + 1..]
  {
    var order := all[popped..];
    assert order[0] !in order[1..];
    assert order == [order[0]] + order[1..];
  }

  lemma {:induction false} WithoutMore(order: seq<string>, gone: set<string>, d: string)
    ensures Without(Without(order, gone), {d}) == Without(order, gone + {d})
  {
    if order == [] {
    } else {
      WithoutMore(order[1..], gone, d);
      if order[0] in gone {
        assert Without(order, gone) == Without(order[1..], gone);
      } else {
        assert Without(order, gone)[1..] == Without(order[1..], gone);
      }
    }
  }
}
