/** Conservation of the counters and safety of the filter verdict over whole runs of the resolver. */
module DnsResolverRuns {
  import opened Bytes
  import opened DnsCache
  import opened DnsFilters
  import opened DnsMetrics
  import DnsNames
  import opened DnsParser
  import opened DnsQueryLog
  import opened DnsResolver

  const FRESH_NODE := Node(EMPTY_CACHE, NO_COUNTS)

  /** The node before query `k`, starting with an empty cache and zero counters. */
  ghost function NodeAt(env: Env, run: seq<Arrival>, k: nat): Node
    requires k <= |run|
  {
    if k == 0 then FRESH_NODE else ResolveStep(env, NodeAt(env, run, k - 1), run[k - 1]).0
  }

  ghost function OutcomeAt(env: Env, run: seq<Arrival>, k: nat): Outcome
    requires k < |run|
  {
    ResolveStep(env, NodeAt(env, run, k), run[k]).2
  }

  ghost function ResponseAt(env: Env, run: seq<Arrival>, k: nat): seq<byte>
    requires k < |run|
  {
    ResolveStep(env, NodeAt(env, run, k), run[k]).1
  }

  /** How many of the first `k` queries ended in `o`. */
  ghost function Times(env: Env, run: seq<Arrival>, k: nat, o: Outcome): nat
    requires k <= |run|
  {
    if k == 0 then 0 else Times(env, run, k - 1, o) + if OutcomeAt(env, run, k - 1) == o then 1 else 0
  }

  // ----- conservation -----

  function Rcodes(c: Counters): nat {
    c.noerror + c.formerr + c.servfail + c.nxdomain + c.other
  }

  /** Whole responses are kept, so every answer has a response code to count. */
  ghost predicate WholeResponses(c: Cache) {
    forall d :: d in c.entries ==> |c.entries[d].response| >= 12
  }

  lemma CountedOnce(c: Counters, response: seq<byte>)
    requires |response| >= 12
    ensures var c' := CountResponse(c, response);
            && Rcodes(c') == Rcodes(c) + 1
            && c'.(noerror := c.noerror, formerr := c.formerr, servfail := c.servfail,
                   nxdomain := c.nxdomain, other := c.other) == c
  {
  }

  lemma ErrorIsWhole(lib: Library, packet: seq<byte>, rcode: byte)
    requires WellBehaved(lib) && rcode < 16
    ensures |ErrorResponse(lib, packet, rcode)| >= 12 && ErrorResponse(lib, packet, rcode)[3] % 16 == rcode
  {
  }

  lemma LookupWhole(c: Cache, d: string, now: real)
    requires WholeResponses(c)
    ensures WholeResponses(Lookup(c, d, now).0)
    ensures Lookup(c, d, now).1.Some? ==> |Lookup(c, d, now).1.value| >= 12
    ensures var (c', r) := Lookup(c, d, now);
            if r.Some? then c'.hits == c.hits + 1 && c'.misses == c.misses
            else c'.hits == c.hits && c'.misses == c.misses + 1
  {
  }

  lemma StoreWhole(c: Cache, d: string, response: seq<byte>, now: real)
    requires WholeResponses(c) && |response| >= 12
    ensures WholeResponses(Store(c, d, response, now))
    ensures Store(c, d, response, now).hits == c.hits && Store(c, d, response, now).misses == c.misses
  {
  }

  /** What one query adds to the counters, by how it ended. */
  ghost predicate Accounts(c: Counters, c': Counters, o: Outcome) {
    && c'.total == c.total + 1
    && c'.cacheHits == c.cacheHits + (if o.Hit? then 1 else 0)
    && c'.cacheMisses == c.cacheMisses + (if o.FormErr? || o.Hit? then 0 else 1)
    && c'.blocked == c.blocked + (if o.Blocked? then 1 else 0)
    && c'.allowed == c.allowed + (if o.Failed? || o.Answered? then 1 else 0)
    && c'.upstreamFailures == c.upstreamFailures + (if o.Failed? then 1 else 0)
    && c'.upstreamSuccess == c.upstreamSuccess + (if o.Answered? then 1 else 0)
    && Rcodes(c') == Rcodes(c) + 1
  }

  ghost predicate Healthy(n: Node) {
    WholeResponses(n.cache) && n.cache.hits == n.counters.cacheHits && n.cache.misses == n.counters.cacheMisses
  }

  lemma ForwardAccounts(env: Env, c: Counters, cache: Cache, d: string, a: Arrival)
    requires WellBehaved(env.lib) && WholeResponses(cache)
    ensures var (n, r, o) := Forwarded(env, c, cache, d, a);
            && Accounts(c.(total := c.total - 1, cacheMisses := c.cacheMisses - 1), n.counters, o)
            && WholeResponses(n.cache) && n.cache.hits == cache.hits && n.cache.misses == cache.misses
            && n.counters.cacheHits == c.cacheHits && n.counters.cacheMisses == c.cacheMisses
    requires c.total > 0 && c.cacheMisses > 0
  {
    hide ErrorResponse, Store, CountResponse;
    var (n, r, o) := Forwarded(env, c, cache, d, a);
    ErrorIsWhole(env.lib, a.packet, SERVFAIL);
    if o.Answered? {
      StoreWhole(cache, d, a.upstream.value, a.at.storeAt);
      CountedOnce(c.(allowed := c.allowed + 1, upstreamSuccess := c.upstreamSuccess + 1), r);
    } else {
      CountedOnce(c.(allowed := c.allowed + 1, upstreamFailures := c.upstreamFailures + 1), r);
    }
  }

  lemma RefuseAccounts(env: Env, c: Counters, cache: Cache, a: Arrival)
    requires WellBehaved(env.lib) && c.total > 0 && c.cacheMisses > 0
    ensures var (n, r, o) := Refused(env, c, cache, a);
            && Accounts(c.(total := c.total - 1, cacheMisses := c.cacheMisses - 1), n.counters, o)
            && n.cache == cache && n.counters.cacheHits == c.cacheHits && n.counters.cacheMisses == c.cacheMisses
  {
    hide ErrorResponse, CountResponse;
    ErrorIsWhole(env.lib, a.packet, NXDOMAIN);
    CountedOnce(c.(blocked := c.blocked + 1), ErrorResponse(env.lib, a.packet, NXDOMAIN));
  }

  lemma LookedAccounts(env: Env, c: Counters, cache: Cache, d: string, a: Arrival)
    requires WellBehaved(env.lib) && c.total > 0
    requires WholeResponses(cache) && cache.hits == c.cacheHits && cache.misses == c.cacheMisses
    ensures var (n, r, o) := Looked(env, c, cache, d, a);
            Accounts(c.(total := c.total - 1), n.counters, o) && Healthy(n)
  {
    hide Forwarded, Refused, Lookup, CountResponse;
    LookupWhole(cache, d, a.at.lookupAt);
    var (cache', cached) := Lookup(cache, d, a.at.lookupAt);
    if cached.Some? {
      CountedOnce(c.(cacheHits := c.cacheHits + 1), cached.value);
    } else {
      var c' := c.(cacheMisses := c.cacheMisses + 1);
      ForwardAccounts(env, c', cache', d, a);
      RefuseAccounts(env, c', cache', a);
    }
  }

  lemma StepAccounts(env: Env, n: Node, a: Arrival)
    requires WellBehaved(env.lib) && Healthy(n)
    ensures var (n', r, o) := ResolveStep(env, n, a); Accounts(n.counters, n'.counters, o) && Healthy(n')
  {
    hide ParseOf, Looked, ErrorResponse, CountResponse;
    var q := ParseOf(env.text, a.packet);
    var c := n.counters.(total := n.counters.total + 1);
    if q.None? {
      ErrorIsWhole(env.lib, a.packet, FORMERR);
      CountedOnce(c, ErrorResponse(env.lib, a.packet, FORMERR));
    } else {
      LookedAccounts(env, c, n.cache, q.value.domain, a);
    }
  }

  /** The laws between the counters; `failures` counts the queries that could not be parsed. */
  predicate Balanced(c: Counters, failures: nat) {
    && c.total == failures + c.cacheHits + c.cacheMisses
    && c.cacheMisses == c.blocked + c.allowed
    && c.allowed == c.upstreamSuccess + c.upstreamFailures
    && Rcodes(c) == c.total
  }

  lemma AccountsBalance(c: Counters, c': Counters, o: Outcome, failures: nat)
    requires Balanced(c, failures) && Accounts(c, c', o)
    ensures Balanced(c', failures + if o.FormErr? then 1 else 0)
  {
  }

  /** Each counter is the number of queries that ended the way it stands for. */
  ghost predicate Tallied(env: Env, run: seq<Arrival>, k: nat, c: Counters)
    requires k <= |run|
  {
    && c.total == k
    && c.cacheHits == Times(env, run, k, Hit)
    && c.blocked == Times(env, run, k, Blocked)
    && c.upstreamFailures == Times(env, run, k, Failed)
    && c.upstreamSuccess == Times(env, run, k, Answered)
  }

  lemma {:induction false} NodeTallied(env: Env, run: seq<Arrival>, k: nat)
    requires WellBehaved(env.lib) && k <= |run|
    ensures Healthy(NodeAt(env, run, k)) && Tallied(env, run, k, NodeAt(env, run, k).counters)
  {
    hide ResolveStep;
    if k == 0 {
    } else {
      NodeTallied(env, run, k - 1);
      StepAccounts(env, NodeAt(env, run, k - 1), run[k - 1]);
    }
  }

  /**
   Conservation over all runs: queries = parse failures + hits + misses, misses = blocked +
   allowed, allowed = upstream successes + failures, and the response-code counters sum to the
   responses returned.
   */
  lemma {:induction false} RunConserves(env: Env, run: seq<Arrival>, k: nat)
    requires WellBehaved(env.lib) && k <= |run|
    ensures Balanced(NodeAt(env, run, k).counters, Times(env, run, k, FormErr))
  {
    hide ResolveStep, Accounts, Balanced;
    if k == 0 {
      NothingBalances(NodeAt(env, run, k).counters, Times(env, run, k, FormErr));
    } else {
      RunConserves(env, run, k - 1);
      NodeTallied(env, run, k - 1);
      StepAccounts(env, NodeAt(env, run, k - 1), run[k - 1]);
      AccountsBalance(NodeAt(env, run, k - 1).counters, NodeAt(env, run, k).counters, OutcomeAt(env, run, k - 1),
                      Times(env, run, k - 1, FormErr));
    }
  }

  lemma NothingBalances(c: Counters, failures: nat)
    requires c == NO_COUNTS && failures == 0
    ensures Balanced(c, failures)
  {
  }

  // ----- response codes -----

  /** Codes 0 to 3 have a counter each; all others share the fifth. */
  function CodeClass(response: seq<byte>): nat
    requires |response| >= 4
  {
    if response[3] % 16 < 4 then response[3] % 16 else 4
  }

  /** Exactly the counter of the response's code has grown, by one. */
  ghost predicate CodeCounted(c: Counters, c': Counters, response: seq<byte>)
    requires |response| >= 4
  {
    var k := CodeClass(response);
    && c'.noerror == c.noerror + (if k == 0 then 1 else 0)
    && c'.formerr == c.formerr + (if k == 1 then 1 else 0)
    && c'.servfail == c.servfail + (if k == 2 then 1 else 0)
    && c'.nxdomain == c.nxdomain + (if k == 3 then 1 else 0)
    && c'.other == c.other + (if k == 4 then 1 else 0)
  }

  lemma ResponseCode(c: Counters, response: seq<byte>)
    requires |response| >= 4
    ensures CodeCounted(c, CountResponse(c, response), response)
  {
  }

  lemma LookedCode(env: Env, c: Counters, cache: Cache, d: string, a: Arrival)
    requires WellBehaved(env.lib) && WholeResponses(cache)
    ensures var (n, r, o) := Looked(env, c, cache, d, a); |r| >= 12 && CodeCounted(c, n.counters, r)
  {
    hide Lookup, Store, CountResponse, ErrorResponse, CodeClass;
    LookupWhole(cache, d, a.at.lookupAt);
    ErrorIsWhole(env.lib, a.packet, NXDOMAIN);
    ErrorIsWhole(env.lib, a.packet, SERVFAIL);
    var r := Looked(env, c, cache, d, a).1;
    assert |r| >= 12;
    var hit, missed := c.(cacheHits := c.cacheHits + 1), c.(cacheMisses := c.cacheMisses + 1);
    var sent := missed.(allowed := c.allowed + 1);
    ResponseCode(hit, r);
    ResponseCode(missed.(blocked := c.blocked + 1), r);
    ResponseCode(sent.(upstreamFailures := c.upstreamFailures + 1), r);
    ResponseCode(sent.(upstreamSuccess := c.upstreamSuccess + 1), r);
  }

  lemma StepCode(env: Env, n: Node, a: Arrival)
    requires WellBehaved(env.lib) && Healthy(n)
    ensures var (n', r, o) := ResolveStep(env, n, a); |r| >= 12 && CodeCounted(n.counters, n'.counters, r)
  {
    hide ParseOf, Looked, ErrorResponse, CountResponse, CodeClass;
    var q := ParseOf(env.text, a.packet);
    var c := n.counters.(total := n.counters.total + 1);
    if q.None? {
      ErrorIsWhole(env.lib, a.packet, FORMERR);
      ResponseCode(c, ErrorResponse(env.lib, a.packet, FORMERR));
    } else {
      LookedCode(env, c, n.cache, q.value.domain, a);
    }
  }

  /** How many of the first `k` responses fall under counter `code`. */
  ghost function Coded(env: Env, run: seq<Arrival>, k: nat, code: nat): nat
    requires k <= |run|
  {
    if k == 0 then 0
    else
      var r := ResponseAt(env, run, k - 1);
      Coded(env, run, k - 1, code) + if |r| >= 4 && CodeClass(r) == code then 1 else 0
  }

  /** Over all runs each of the five counters is the number of responses returned with its code. */
  lemma {:induction false} RunCodes(env: Env, run: seq<Arrival>, k: nat)
    requires WellBehaved(env.lib) && k <= |run|
    ensures var c := NodeAt(env, run, k).counters;
            && c.noerror == Coded(env, run, k, 0) && c.formerr == Coded(env, run, k, 1)
            && c.servfail == Coded(env, run, k, 2) && c.nxdomain == Coded(env, run, k, 3)
            && c.other == Coded(env, run, k, 4)
  {
    hide ResolveStep, CodeClass, Tallied;
    if k == 0 {
    } else {
      RunCodes(env, run, k - 1);
      NodeTallied(env, run, k - 1);
      StepCode(env, NodeAt(env, run, k - 1), run[k - 1]);
    }
  }

  // ----- the verdict of the filters -----

  /** Query `i` asked for `d`, the rules in force let it pass, and the upstream answer was stored. */
  ghost predicate StoredBy(env: Env, run: seq<Arrival>, i: nat, d: string)
    requires i < |run|
  {
    && OutcomeAt(env, run, i) == Answered && Allows(run[i].rules, d)
    && ParseOf(env.text, run[i].packet).Some? && ParseOf(env.text, run[i].packet).value.domain == d
  }

  /** Every cached entry comes from such a query, and says when it was stored. */
  ghost predicate Provenance(env: Env, run: seq<Arrival>, k: nat, d: string, e: Entry)
    requires k <= |run|
  {
    exists i :: 0 <= i < k && StoredBy(env, run, i, d)
                && e.response == ResponseAt(env, run, i) && e.expiresAt == run[i].at.storeAt + DEFAULT_TTL
  }

  lemma ProvenanceOlder(env: Env, run: seq<Arrival>, k: nat, d: string, e: Entry)
    requires k < |run| && Provenance(env, run, k, d, e)
    ensures Provenance(env, run, k + 1, d, e)
  {
    hide StoredBy, ResponseAt;
    var i :| 0 <= i < k && StoredBy(env, run, i, d)
             && e.response == ResponseAt(env, run, i) && e.expiresAt == run[i].at.storeAt + DEFAULT_TTL;
    assert 0 <= i < k + 1;
  }

  /** What one query leaves in the cache: entries that were there, or the one it has just stored. */
  ghost predicate OldOrStored(cache: Cache, n: Node, r: seq<byte>, o: Outcome, domain: string, a: Arrival) {
    forall d :: d in n.cache.entries ==>
      || (d in cache.entries && n.cache.entries[d].response == cache.entries[d].response
          && n.cache.entries[d].expiresAt == cache.entries[d].expiresAt)
      || (o == Answered && d == domain && Allows(a.rules, d)
          && n.cache.entries[d] == Entry(r, a.at.storeAt + DEFAULT_TTL, 0))
  }

  lemma LookedKeeps(env: Env, c: Counters, cache: Cache, domain: string, a: Arrival)
    ensures var (n, r, o) := Looked(env, c, cache, domain, a); OldOrStored(cache, n, r, o, domain, a)
    ensures var o := Looked(env, c, cache, domain, a).2;
            o.Hit? ==> domain in cache.entries && a.at.lookupAt < cache.entries[domain].expiresAt
                       && Looked(env, c, cache, domain, a).1 == cache.entries[domain].response
    ensures var o := Looked(env, c, cache, domain, a).2;
            && (o.Blocked? ==> !Allows(a.rules, domain))
            && (o.Failed? || o.Answered? ==> Allows(a.rules, domain)) && !o.FormErr?
  {
    hide ErrorResponse, CountResponse;
  }

  lemma StepKeeps(env: Env, n: Node, a: Arrival)
    ensures var (n', r, o) := ResolveStep(env, n, a);
            var q := ParseOf(env.text, a.packet);
            if q.Some? then OldOrStored(n.cache, n', r, o, q.value.domain, a) else n'.cache == n.cache
  {
    hide ParseOf, Looked, ErrorResponse, CountResponse, OldOrStored;
    var q := ParseOf(env.text, a.packet);
    if q.Some? {
      LookedKeeps(env, n.counters.(total := n.counters.total + 1), n.cache, q.value.domain, a);
    }
  }

  lemma {:induction false} CachedHasProvenance(env: Env, run: seq<Arrival>, k: nat, d: string)
    requires k <= |run| && d in NodeAt(env, run, k).cache.entries
    ensures Provenance(env, run, k, d, NodeAt(env, run, k).cache.entries[d])
    decreases k, 0
  {
    hide ParseOf, ResolveStep, OldOrStored, Provenance;
    if k == 0 {
    } else {
      StepKeeps(env, NodeAt(env, run, k - 1), run[k - 1]);
      var q := ParseOf(env.text, run[k - 1].packet);
      if q.Some? {
        ProvenanceNext(env, run, k - 1, d, q.value.domain);
      } else {
        CachedHasProvenance(env, run, k - 1, d);
        ProvenanceOlder(env, run, k - 1, d, NodeAt(env, run, k - 1).cache.entries[d]);
      }
    }
  }

  lemma {:induction false} ProvenanceNext(env: Env, run: seq<Arrival>, k: nat, d: string, domain: string)
    requires k < |run| && d in NodeAt(env, run, k + 1).cache.entries
    requires ParseOf(env.text, run[k].packet).Some? && ParseOf(env.text, run[k].packet).value.domain == domain
    requires OldOrStored(NodeAt(env, run, k).cache, NodeAt(env, run, k + 1), ResponseAt(env, run, k),
                         OutcomeAt(env, run, k), domain, run[k])
    ensures Provenance(env, run, k + 1, d, NodeAt(env, run, k + 1).cache.entries[d])
    decreases k, 1
  {
    hide ParseOf, ResolveStep;
    var cache, e := NodeAt(env, run, k).cache, NodeAt(env, run, k + 1).cache.entries[d];
    if d in cache.entries && e.response == cache.entries[d].response && e.expiresAt == cache.entries[d].expiresAt {
      CachedHasProvenance(env, run, k, d);
      ProvenanceOlder(env, run, k, d, cache.entries[d]);
    } else {
      assert StoredBy(env, run, k, d);
    }
  }

  /** A hit answers with the live cached entry of the domain asked for. */
  lemma HitEntry(env: Env, n: Node, a: Arrival)
    requires ResolveStep(env, n, a).2.Hit?
    ensures ParseOf(env.text, a.packet).Some?
    ensures var d := ParseOf(env.text, a.packet).value.domain;
            d in n.cache.entries && a.at.lookupAt < n.cache.entries[d].expiresAt
            && ResolveStep(env, n, a).1 == n.cache.entries[d].response
  {
    hide ParseOf, Looked, ErrorResponse, CountResponse;
    var q := ParseOf(env.text, a.packet);
    assert q.Some?;
    LookedKeeps(env, n.counters.(total := n.counters.total + 1), n.cache, q.value.domain, a);
  }

  /**
   An answer from the cache repeats an upstream answer that was stored less than 300 seconds
   ago for a domain the rules then in force allowed: that is how stale a verdict can be.
   */
  lemma HitWasAllowed(env: Env, run: seq<Arrival>, k: nat)
    requires k < |run| && OutcomeAt(env, run, k).Hit?
    ensures ParseOf(env.text, run[k].packet).Some?
    ensures exists i :: 0 <= i < k && StoredBy(env, run, i, ParseOf(env.text, run[k].packet).value.domain)
                        && run[k].at.lookupAt < run[i].at.storeAt + 300.0
                        && ResponseAt(env, run, k) == ResponseAt(env, run, i)
  {
    hide ParseOf, StoredBy, ResolveStep;
    HitEntry(env, NodeAt(env, run, k), run[k]);
    var d := ParseOf(env.text, run[k].packet).value.domain;
    var e := NodeAt(env, run, k).cache.entries[d];
    CachedHasProvenance(env, run, k, d);
    var i :| 0 <= i < k && StoredBy(env, run, i, d)
             && e.response == ResponseAt(env, run, i) && e.expiresAt == run[i].at.storeAt + DEFAULT_TTL;
  }

  /**
   While the rules stay the same the cache never alters a verdict: a query for a blocked domain
   is refused, never answered from the cache and never sent upstream.
   */
  lemma BlockedStaysBlocked(env: Env, run: seq<Arrival>, k: nat, d: string)
    requires k < |run| && forall i :: 0 <= i <= k ==> run[i].rules == run[k].rules
    requires ParseOf(env.text, run[k].packet).Some? && ParseOf(env.text, run[k].packet).value.domain == d
    ensures OutcomeAt(env, run, k) == Blocked <==> !Allows(run[k].rules, d)
  {
    hide ParseOf, Looked, ErrorResponse, CountResponse, Allows;
    var n, a := NodeAt(env, run, k), run[k];
    LookedKeeps(env, n.counters.(total := n.counters.total + 1), n.cache, d, a);
    if OutcomeAt(env, run, k).Hit? {
      HitWasAllowed(env, run, k);
      var i :| 0 <= i < k && StoredBy(env, run, i, d);
      assert Allows(run[i].rules, d) && run[i].rules == run[k].rules;
    }
  }

  /**
   When the refusal happens: a query that parses is refused exactly when the rules in force
   block its domain and no live answer for it is in the cache.
   */
  lemma BlockedExactly(env: Env, n: Node, a: Arrival, q: Query)
    requires ParseOf(env.text, a.packet) == Some(q)
    ensures ResolveStep(env, n, a).2 == Blocked
            <==> !Allows(a.rules, q.domain)
                 && (q.domain !in n.cache.entries || a.at.lookupAt >= n.cache.entries[q.domain].expiresAt)
  {
    hide ParseOf, ErrorResponse, CountResponse, Allows, Store;
  }

  lemma LiveEntryAnswers(env: Env, n: Node, a: Arrival, q: Query)
    requires ParseOf(env.text, a.packet) == Some(q)
    requires q.domain in n.cache.entries && a.at.lookupAt < n.cache.entries[q.domain].expiresAt
    ensures ResolveStep(env, n, a).2 == Hit && ResolveStep(env, n, a).1 == n.cache.entries[q.domain].response
  {
    hide ParseOf, ErrorResponse, CountResponse, Allows, Store;
  }

  /** An allowed query for a domain that is not cached is answered from upstream, and that is cached. */
  lemma AnswerIsCached(env: Env, n: Node, a: Arrival, q: Query)
    requires ParseOf(env.text, a.packet) == Some(q) && Allows(a.rules, q.domain)
    requires Consistent(n.cache) && q.domain !in n.cache.entries
    requires a.upstream.Some? && Acceptable(a.packet, a.upstream.value)
    ensures ResolveStep(env, n, a).2 == Answered
    ensures var entries := ResolveStep(env, n, a).0.cache.entries;
            q.domain in entries
            && entries[q.domain] == Entry(a.upstream.value, a.at.storeAt + DEFAULT_TTL, 0)
  {
    hide ParseOf, ErrorResponse, CountResponse, Allows, Store, Consistent;
    var missed := n.cache.(misses := n.cache.misses + 1);
    StillConsistent(n.cache, missed);
    StoreConsistent(missed, q.domain, a.upstream.value, a.at.storeAt);
  }

  lemma StillConsistent(c: Cache, c': Cache)
    requires Consistent(c) && c'.order == c.order && c'.entries == c.entries
    ensures Consistent(c')
  {
  }

  /**
   When the rules change in between, the cache goes on answering for a domain that is now
   blocked: the second of two queries for it repeats the first answer, unless 300 seconds have
   passed since that was stored.
   */
  lemma NewRuleNotAppliedToCache(env: Env, run: seq<Arrival>, q: Query, r: Query)
    requires |run| == 2 && ParseOf(env.text, run[0].packet) == Some(q) && ParseOf(env.text, run[1].packet) == Some(r)
    requires q.domain == r.domain && Allows(run[0].rules, q.domain) && !Allows(run[1].rules, r.domain)
    requires run[0].upstream.Some? && Acceptable(run[0].packet, run[0].upstream.value)
    ensures OutcomeAt(env, run, 0) == Answered
    ensures if run[1].at.lookupAt < run[0].at.storeAt + 300.0
            then OutcomeAt(env, run, 1) == Hit && ResponseAt(env, run, 1) == run[0].upstream.value
            else OutcomeAt(env, run, 1) == Blocked
  {
    hide ParseOf, ResolveStep, Allows;
    assert NodeAt(env, run, 0) == FRESH_NODE;
    AnswerIsCached(env, FRESH_NODE, run[0], q);
    BlockedExactly(env, NodeAt(env, run, 1), run[1], r);
    if run[1].at.lookupAt < run[0].at.storeAt + 300.0 {
      LiveEntryAnswers(env, NodeAt(env, run, 1), run[1], r);
    }
  }

  lemma ErrorCodes(env: Env, n: Node, a: Arrival)
    requires WellBehaved(env.lib)
    ensures var (n', r, o) := ResolveStep(env, n, a);
            && (o.FormErr? ==> Rcode(r) == Some(1))
            && (o.Blocked? ==> Rcode(r) == Some(3))
            && (o.Failed? ==> Rcode(r) == Some(2))
  {
    hide ParseOf, ErrorResponse, CountResponse, Lookup, Store;
    ErrorIsWhole(env.lib, a.packet, FORMERR);
    ErrorIsWhole(env.lib, a.packet, NXDOMAIN);
    ErrorIsWhole(env.lib, a.packet, SERVFAIL);
  }

  lemma AnsweredByUpstream(env: Env, n: Node, a: Arrival)
    ensures var (n', r, o) := ResolveStep(env, n, a);
            && (o.Answered? ==> a.upstream == Some(r) && |r| >= 12 && r[..2] == a.packet[..2])
            && (o.Failed? ==> a.upstream.None? || !Acceptable(a.packet, a.upstream.value))
  {
    hide ParseOf, ErrorResponse, CountResponse, Lookup, Store, Allows;
  }

  /** The upstream server sent these octets in answer to query `i`: a whole header with the query's identifier. */
  predicate Upstream(run: seq<Arrival>, i: nat, response: seq<byte>)
    requires i < |run|
  {
    && run[i].upstream == Some(response) && |run[i].packet| >= 12 && |response| >= 12
    && response[0] == run[i].packet[0] && response[1] == run[i].packet[1]
  }

  /**
   Where responses come from, over all runs: an error answer carries the code it is meant to
   carry, and every other answer is, octet for octet, what the upstream server sent to this
   query or to an earlier one for the same domain.  A query fails only without such an answer.
   */
  lemma ResponsesExplained(env: Env, run: seq<Arrival>, k: nat)
    requires WellBehaved(env.lib) && k < |run|
    ensures var r := ResponseAt(env, run, k);
            match OutcomeAt(env, run, k)
            case FormErr => Rcode(r) == Some(1) && ParseOf(env.text, run[k].packet).None?
            case Blocked => Rcode(r) == Some(3)
            case Failed => Rcode(r) == Some(2) && forall x :: !Upstream(run, k, x)
            case Answered => Upstream(run, k, r)
            case Hit => exists i :: 0 <= i < k && Upstream(run, i, r) && SameDomain(env, run, i, k)
  {
    hide ParseOf, StoredBy, ResolveStep;
    ErrorCodes(env, NodeAt(env, run, k), run[k]);
    AnsweredByUpstream(env, NodeAt(env, run, k), run[k]);
    FormErrExactly(env, NodeAt(env, run, k), run[k]);
    if OutcomeAt(env, run, k).Hit? { HitIsUpstream(env, run, k); }
  }

  // ----- error answers -----

  /** The library's replies are whole headers that repeat the identifier and carry the response bit. */
  ghost predicate Replies(lib: Library) {
    forall p: seq<byte>, rcode: byte :: |p| >= 12 && rcode < 16 && lib.reply(p, rcode).Some? ==>
      var r := lib.reply(p, rcode).value;
      |r| >= 12 && r[0] == p[0] && r[1] == p[1] && r[2] >= 0x80
  }

  /**
   An error answer to the packet: what the library replies to a packet with a whole header, and
   otherwise a bare header.  In both cases it repeats the identifier and is marked as a response.
   */
  ghost predicate Answers(lib: Library, packet: seq<byte>, rcode: byte, r: seq<byte>)
    requires rcode < 16
  {
    && |r| >= 12 && r[2] >= 0x80
    && (|packet| >= 2 ==> r[0] == packet[0] && r[1] == packet[1])
    && if |packet| >= 12 && lib.reply(packet, rcode).Some? then r == lib.reply(packet, rcode).value
       else |r| == 12 && r[2] == 0x80 && r[3] == rcode && forall i :: 4 <= i < 12 ==> r[i] == 0
  }

  lemma ErrorAnswers(lib: Library, packet: seq<byte>, rcode: byte)
    requires Replies(lib) && rcode < 16
    ensures Answers(lib, packet, rcode, ErrorResponse(lib, packet, rcode))
  {
    var r := MinimalError(packet, rcode);
    assert |packet| >= 2 ==> r[0] == r[..2][0] == packet[0] && r[1] == r[..2][1] == packet[1];
    hide MinimalError;
  }

  lemma StepAnswers(env: Env, n: Node, a: Arrival)
    requires Replies(env.lib)
    ensures var (n', r, o) := ResolveStep(env, n, a);
            && (o.FormErr? ==> Answers(env.lib, a.packet, 1, r))
            && (o.Blocked? ==> Answers(env.lib, a.packet, 3, r))
            && (o.Failed? ==> Answers(env.lib, a.packet, 2, r))
  {
    ErrorAnswers(env.lib, a.packet, 1);
    ErrorAnswers(env.lib, a.packet, 2);
    ErrorAnswers(env.lib, a.packet, 3);
    hide ParseOf, ErrorResponse, CountResponse, Lookup, Store, Allows, Answers, Replies;
  }

  /**
   Over all runs every error answer belongs to its query: codes 1, 3 and 2 for a packet that
   cannot be parsed, a blocked name and a failing upstream server.
   */
  lemma ErrorsAnswerTheirQueries(env: Env, run: seq<Arrival>, k: nat)
    requires Replies(env.lib) && k < |run|
    ensures match OutcomeAt(env, run, k)
            case FormErr => Answers(env.lib, run[k].packet, 1, ResponseAt(env, run, k))
            case Blocked => Answers(env.lib, run[k].packet, 3, ResponseAt(env, run, k))
            case Failed => Answers(env.lib, run[k].packet, 2, ResponseAt(env, run, k))
            case _ => true
  {
    hide ResolveStep, Answers, Replies;
    StepAnswers(env, NodeAt(env, run, k), run[k]);
  }

  /** Queries `i` and `k` ask for the same domain. */
  ghost predicate SameDomain(env: Env, run: seq<Arrival>, i: nat, k: nat)
    requires i < |run| && k < |run|
  {
    var q, r := ParseOf(env.text, run[i].packet), ParseOf(env.text, run[k].packet);
    q.Some? && r.Some? && q.value.domain == r.value.domain
  }

  lemma FormErrExactly(env: Env, n: Node, a: Arrival)
    ensures ResolveStep(env, n, a).2 == FormErr <==> ParseOf(env.text, a.packet).None?
  {
    hide ParseOf, ErrorResponse, CountResponse, Lookup, Store, Allows;
  }

  lemma StoredIsUpstream(env: Env, run: seq<Arrival>, i: nat, d: string, k: nat)
    requires i < |run| && k < |run| && StoredBy(env, run, i, d)
    requires ParseOf(env.text, run[k].packet).Some? && ParseOf(env.text, run[k].packet).value.domain == d
    ensures Upstream(run, i, ResponseAt(env, run, i)) && SameDomain(env, run, i, k)
  {
    hide ParseOf, ResolveStep;
    AnsweredByUpstream(env, NodeAt(env, run, i), run[i]);
  }

  lemma HitIsUpstream(env: Env, run: seq<Arrival>, k: nat)
    requires k < |run| && OutcomeAt(env, run, k).Hit?
    ensures exists i :: 0 <= i < k && Upstream(run, i, ResponseAt(env, run, k)) && SameDomain(env, run, i, k)
  {
    hide ParseOf, ResolveStep, StoredBy, ResponseAt, SameDomain, Upstream;
    HitWasAllowed(env, run, k);
    var d := ParseOf(env.text, run[k].packet).value.domain;
    var i :| 0 <= i < k && StoredBy(env, run, i, d) && ResponseAt(env, run, k) == ResponseAt(env, run, i);
    StoredIsUpstream(env, run, i, d, k);
  }

  /**
   A parsed query with an ASCII name is left out of the log exactly when its name, without outer
   white space, has no character but dots: no other check of the log can refuse it.
   */
  lemma OnlyBlankNamesUnlogged(text: Text, packet: seq<byte>, w: seq<DnsNames.Step>, q: Query, response: seq<byte>,
                               latency: real)
    requires AsciiText(text) && QuestionVia(text, packet, w, q) && latency >= 0.0
    requires forall k :: 0 <= k < |DnsNames.Labels(w)| ==> AsciiOctets(DnsNames.Labels(w)[k])
    ensures Refusal(q.domain, q.queryType, q.queryClass, if response == [] then None else Rcode(response), latency)
            == if Nameable(q.domain) then None else Some(EmptyDomain)
  {
    AcceptedNameFits(text, packet, DNS_HEADER_SIZE, w);
    ShortNameFits(q.domain);
    NameableExactly(q.domain);
  }
}
