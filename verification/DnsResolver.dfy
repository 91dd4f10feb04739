/** The resolver pipeline (dns_engine/resolver.py, dns_engine/response.py): parse, cache, filter, upstream, store. */
module DnsResolver {
  import opened Bytes
  import opened DnsCache
  import opened DnsFilters
  import opened DnsMetrics
  import opened DnsParser
  import opened DnsQueryLog

  const FORMERR: byte := 1
  const SERVFAIL: byte := 2
  const NXDOMAIN: byte := 3

  /** The library that answers a well-formed query; `None` when it cannot read the packet. */
  datatype Library = Library(reply: (seq<byte>, byte) -> Option<seq<byte>>)

  /** A library reply is a whole header with the response code asked for. */
  ghost predicate WellBehaved(lib: Library) {
    forall p: seq<byte>, rcode: byte :: rcode < 16 && lib.reply(p, rcode).Some? ==>
      |lib.reply(p, rcode).value| >= 12 && lib.reply(p, rcode).value[3] % 16 == rcode
  }

  // ----- error responses -----

  /** A bare header: the query's identifier if there is one, the response bit, the code, no sections. */
  function MinimalError(packet: seq<byte>, rcode: byte): (r: seq<byte>)
    requires rcode < 16
    ensures |r| == 12 && r[..2] == (if |packet| >= 2 then packet[..2] else [0, 0])
    ensures r[2] == 0x80 && r[3] == rcode && forall i :: 4 <= i < 12 ==> r[i] == 0
  {
    (if |packet| < 2 then [0, 0] else packet[..2]) + [0x80, rcode] + [0, 0, 0, 0, 0, 0, 0, 0]
  }

  function ErrorResponse(lib: Library, packet: seq<byte>, rcode: byte): seq<byte>
    requires rcode < 16
  {
    if |packet| < 12 || lib.reply(packet, rcode).None? then MinimalError(packet, rcode)
    else lib.reply(packet, rcode).value
  }

  /** A response the upstream client may hand on: a whole header that repeats the identifier. */
  predicate Acceptable(packet: seq<byte>, response: seq<byte>) {
    |packet| >= 12 && |response| >= 12 && response[..2] == packet[..2]
  }

  function Rcode(response: seq<byte>): Option<int> {
    if |response| < 4 then None else Some(response[3] % 16)
  }

  // ----- one query on values -----

  /** How a query ended. */
  datatype Outcome = FormErr | Hit | Blocked | Failed | Answered

  /** Readings of the clocks during one query, and how far writing the log file gets. */
  datatype Reading = Reading(second: int, blockSecond: int, lookupAt: real, storeAt: real, loggedAt: real,
                             latency: real, writing: Writing)

  /** One query: its packet, what the upstream server would send back if asked, the rules in force. */
  datatype Arrival = Arrival(packet: seq<byte>, upstream: Option<seq<byte>>, rules: Rules, at: Reading)

  datatype Node = Node(cache: Cache, counters: Counters)

  datatype Env = Env(text: Text, lib: Library)

  ghost function ParseOf(text: Text, packet: seq<byte>): (r: Option<Query>)
    ensures r.Some? ==> ParsesTo(text, packet, r.value)
    ensures r.None? ==> forall q :: !ParsesTo(text, packet, q)
  {
    if exists q :: ParsesTo(text, packet, q) then var q :| ParsesTo(text, packet, q); Some(q) else None
  }

  function CountResponse(c: Counters, response: seq<byte>): Counters {
    if Rcode(response).None? then c else CountRcode(c, Rcode(response).value)
  }

  function Refused(env: Env, c: Counters, cache: Cache, a: Arrival): (Node, seq<byte>, Outcome) {
    var response := ErrorResponse(env.lib, a.packet, NXDOMAIN);
    (Node(cache, CountResponse(c.(blocked := c.blocked + 1), response)), response, Blocked)
  }

  /** The upstream server is asked; an answer that cannot be used is a failure and nothing is stored. */
  function Forwarded(env: Env, c: Counters, cache: Cache, domain: string, a: Arrival): (Node, seq<byte>, Outcome) {
    if a.upstream.None? || !Acceptable(a.packet, a.upstream.value) then
      var response := ErrorResponse(env.lib, a.packet, SERVFAIL);
      var c' := c.(allowed := c.allowed + 1, upstreamFailures := c.upstreamFailures + 1);
      (Node(cache, CountResponse(c', response)), response, Failed)
    else
      var response := a.upstream.value;
      var c' := c.(allowed := c.allowed + 1, upstreamSuccess := c.upstreamSuccess + 1);
      (Node(Store(cache, domain, response, a.at.storeAt), CountResponse(c', response)), response, Answered)
  }

  /** A miss goes through the filters and, when it passes, to the upstream server. */
  function Miss(env: Env, c: Counters, cache: Cache, domain: string, a: Arrival): (Node, seq<byte>, Outcome) {
    if Allows(a.rules, domain) then Forwarded(env, c, cache, domain, a) else Refused(env, c, cache, a)
  }

  /** A query that parses: the cache answers if it can. */
  function Looked(env: Env, c: Counters, cache: Cache, domain: string, a: Arrival): (Node, seq<byte>, Outcome) {
    var (cache', cached) := Lookup(cache, domain, a.at.lookupAt);
    if cached.Some? then
      (Node(cache', CountResponse(c.(cacheHits := c.cacheHits + 1), cached.value)), cached.value, Hit)
    else Miss(env, c.(cacheMisses := c.cacheMisses + 1), cache', domain, a)
  }

  /** A query whose parse is known; it is counted whether or not it can be parsed. */
  function Handled(env: Env, n: Node, q: Option<Query>, a: Arrival): (Node, seq<byte>, Outcome) {
    var c := n.counters.(total := n.counters.total + 1);
    if q.None? then
      var response := ErrorResponse(env.lib, a.packet, FORMERR);
      (Node(n.cache, CountResponse(c, response)), response, FormErr)
    else Looked(env, c, n.cache, q.value.domain, a)
  }

  ghost function ResolveStep(env: Env, n: Node, a: Arrival): (Node, seq<byte>, Outcome) {
    Handled(env, n, ParseOf(env.text, a.packet), a)
  }

  // ----- the audit record of a query -----

  function Status(o: Outcome): string { if o.Blocked? then "BLOCKED" else "ALLOWED" }
  function CacheStatus(o: Outcome): string { if o.Hit? then "HIT" else "MISS" }
  function UpstreamStatus(o: Outcome): string {
    match o
    case Failed => "FAILED"
    case Answered => "SUCCESS"
    case _ => "NOT_USED"
  }

  /** Every query that parses is logged unless the log refuses it; the response is given either way. */
  function LogStep(g: Log, capacity: nat, q: Query, o: Outcome, response: seq<byte>, at: Reading): Log {
    var rcode := if response == [] then None else Rcode(response);
    if Refusal(q.domain, q.queryType, q.queryClass, rcode, at.latency).Some? then g
    else Appended(g, capacity,
                  LogEntry(at.loggedAt, LoggedName(q.domain), q.queryType, q.queryClass, Status(o), CacheStatus(o),
                           UpstreamStatus(o), rcode, at.latency), at.writing)
  }

  ghost function LogAfter(env: Env, n: Node, g: Log, capacity: nat, a: Arrival): Log {
    var q := ParseOf(env.text, a.packet);
    var r := ResolveStep(env, n, a);
    if q.None? then g else LogStep(g, capacity, q.value, r.2, r.1, a.at)
  }

  // ----- the object -----

  class DNSResolver {
    const env: Env
    const cache: DNSCache
    const filterManager: FilterManager
    const metrics: DNSMetrics
    const queryLog: DNSQueryLog

    ghost predicate Valid()
      reads cache, metrics, queryLog
    {
      cache.Valid() && metrics.Valid() && queryLog.Valid()
    }

    ghost function Now(): Node
      reads cache, metrics
    {
      Node(cache.Now(), metrics.counters)
    }

    constructor (env: Env, cache: DNSCache, filterManager: FilterManager, metrics: DNSMetrics, queryLog: DNSQueryLog)
      requires cache.Valid() && metrics.Valid() && queryLog.Valid()
      ensures Valid() && this.env == env && this.cache == cache && this.filterManager == filterManager
      ensures this.metrics == metrics && this.queryLog == queryLog
    {
      this.env, this.cache, this.filterManager := env, cache, filterManager;
      this.metrics, this.queryLog := metrics, queryLog;
    }

    method RecordResponse(response: seq<byte>)
      requires metrics.Valid()
      modifies metrics`counters
      ensures metrics.Valid() && metrics.counters == CountResponse(old(metrics.counters), response)
    {
      var rcode := Rcode(response);
      if rcode.Some? {
        metrics.RecordRcode(rcode.value);
      }
    }

    method RecordEvent(q: Query, o: Outcome, response: seq<byte>, at: Reading)
      requires queryLog.Valid()
      modifies queryLog
      ensures queryLog.Valid()
      ensures queryLog.Now() == LogStep(old(queryLog.Now()), queryLog.maxEntries, q, o, response, at)
    {
      var rcode := if |response| == 0 then None else Rcode(response);
      var refused := queryLog.Record(at.loggedAt, q.domain, q.queryType, q.queryClass, Status(o), CacheStatus(o),
                                     UpstreamStatus(o), rcode, at.latency, at.writing);
    }

    method ParsePacket(packet: seq<byte>) returns (q: Option<Query>)
      ensures q == ParseOf(env.text, packet)
    {
      var parsed := Parse(env.text, packet);
      if parsed.Err? {
        return None;
      }
      ParsesToOne(env.text, packet, parsed.value, ParseOf(env.text, packet).value);
      return Some(parsed.value);
    }

    /** One query does to the objects what one step does to the values. */
    method Resolve(packet: seq<byte>, upstream: Option<seq<byte>>, at: Reading)
      returns (response: seq<byte>, o: Outcome)
      requires Valid()
      modifies cache, metrics, queryLog
      ensures Valid()
      ensures var a := Arrival(packet, upstream, filterManager.Now(), at);
              && (Now(), response, o) == ResolveStep(env, old(Now()), a)
              && queryLog.Now() == LogAfter(env, old(Now()), old(queryLog.Now()), queryLog.maxEntries, a)
    {
      hide ParseOf, Handled, LogStep, DNSMetrics.Valid;
      var q := ParsePacket(packet);
      response, o := Answer(q, packet, upstream, at);
      if q.Some? {
        RecordEvent(q.value, o, response, at);
      }
    }

    /** The query is counted before anything else, whether or not it can be parsed. */
    method Answer(q: Option<Query>, packet: seq<byte>, upstream: Option<seq<byte>>, at: Reading)
      returns (response: seq<byte>, o: Outcome)
      requires cache.Valid() && metrics.Valid()
      modifies cache, metrics
      ensures cache.Valid() && metrics.Valid()
      ensures (Now(), response, o) == Handled(env, old(Now()), q, Arrival(packet, upstream, filterManager.Now(), at))
    {
      hide ErrorResponse, Looked, CountResponse, DNSMetrics.Valid;
      metrics.RecordQuery(at.second);
      if q.None? {
        response, o := ErrorResponse(env.lib, packet, FORMERR), FormErr;
        RecordResponse(response);
        return;
      }
      response, o := AnswerParsed(q.value, packet, upstream, at);
    }

    method AnswerParsed(q: Query, packet: seq<byte>, upstream: Option<seq<byte>>, at: Reading)
      returns (response: seq<byte>, o: Outcome)
      requires cache.Valid() && metrics.Valid()
      modifies cache, metrics
      ensures cache.Valid() && metrics.Valid()
      ensures (Now(), response, o) == Looked(env, old(metrics.counters), old(cache.Now()), q.domain,
                                             Arrival(packet, upstream, filterManager.Now(), at))
    {
      hide Miss, CountResponse, Lookup, DNSMetrics.Valid;
      var cached := cache.Find(q.domain, at.lookupAt);
      if cached.Some? {
        metrics.Count(metrics.counters.(cacheHits := metrics.counters.cacheHits + 1));
        RecordResponse(cached.value);
        return cached.value, Hit;
      }
      metrics.Count(metrics.counters.(cacheMisses := metrics.counters.cacheMisses + 1));
      response, o := FilterThenForward(q, packet, upstream, at);
    }

    method FilterThenForward(q: Query, packet: seq<byte>, upstream: Option<seq<byte>>, at: Reading)
      returns (response: seq<byte>, o: Outcome)
      requires cache.Valid() && metrics.Valid()
      modifies cache, metrics
      ensures cache.Valid() && metrics.Valid()
      ensures (Now(), response, o) == Miss(env, old(metrics.counters), old(cache.Now()), q.domain,
                                           Arrival(packet, upstream, filterManager.Now(), at))
    {
      hide ErrorResponse, Forwarded, CountResponse, DNSMetrics.Valid;
      var decision := filterManager.Evaluate(q.domain);
      if decision.Allowed? {
        response, o := Forward(q, packet, upstream, at);
      } else {
        metrics.RecordBlocked(at.blockSecond);
        response, o := ErrorResponse(env.lib, packet, NXDOMAIN), Blocked;
        RecordResponse(response);
      }
    }

    method Forward(q: Query, packet: seq<byte>, upstream: Option<seq<byte>>, at: Reading)
      returns (response: seq<byte>, o: Outcome)
      requires cache.Valid() && metrics.Valid()
      modifies cache, metrics`counters
      ensures cache.Valid() && metrics.Valid()
      ensures (Now(), response, o) == Forwarded(env, old(metrics.counters), old(cache.Now()), q.domain,
                                                Arrival(packet, upstream, filterManager.Now(), at))
    {
      hide ErrorResponse, Store, CountResponse, DNSMetrics.Valid;
      metrics.Count(metrics.counters.(allowed := metrics.counters.allowed + 1));
      if upstream.None? || !Acceptable(packet, upstream.value) {
        metrics.Count(metrics.counters.(upstreamFailures := metrics.counters.upstreamFailures + 1));
        response, o := ErrorResponse(env.lib, packet, SERVFAIL), Failed;
        RecordResponse(response);
        return;
      }
      metrics.Count(metrics.counters.(upstreamSuccess := metrics.counters.upstreamSuccess + 1));
      RecordResponse(upstream.value);
      cache.Put(q.domain, upstream.value, at.storeAt);
      return upstream.value, Answered;
    }
  }
}
