/** What the query log holds after any run of the resolver, and how it agrees with the counters. */
module DnsResolverLog {
  import opened Bytes
  import opened ClientIds
  import DnsNames
  import opened DnsParser
  import opened DnsQueryLog
  import opened DnsResolver
  import opened DnsResolverRuns

  /** The log before query `k`, starting empty. */
  ghost function LogBefore(env: Env, capacity: nat, run: seq<Arrival>, k: nat): Log
    requires k <= |run|
  {
    if k == 0 then Log([], None)
    else LogAfter(env, NodeAt(env, run, k - 1), LogBefore(env, capacity, run, k - 1), capacity, run[k - 1])
  }

  // ----- the audit trail of a run -----

  ghost predicate Parsed(env: Env, run: seq<Arrival>, i: nat)
    requires i < |run|
  {
    ParseOf(env.text, run[i].packet).Some?
  }

  /** Query `i` parses to a name that has, without outer white space, a character other than a dot. */
  ghost predicate Named(env: Env, run: seq<Arrival>, i: nat)
    requires i < |run|
  {
    Parsed(env, run, i) && Nameable(ParseOf(env.text, run[i].packet).value.domain)
  }

  lemma NamedIsParsed(env: Env, run: seq<Arrival>, i: nat)
    requires i < |run| && Named(env, run, i)
    ensures Parsed(env, run, i)
  {
  }

  /** The record of query `i`: when and what was asked, and how it ended. */
  ghost function Audit(env: Env, run: seq<Arrival>, i: nat): LogEntry
    requires i < |run| && Parsed(env, run, i)
  {
    var q, o, r := ParseOf(env.text, run[i].packet).value, OutcomeAt(env, run, i), ResponseAt(env, run, i);
    LogEntry(run[i].at.loggedAt, LoggedName(q.domain), q.queryType, q.queryClass, Status(o), CacheStatus(o),
             UpstreamStatus(o), if r == [] then None else Rcode(r), run[i].at.latency)
  }

  /** The records of the named queries among the first `k`, in the order of the queries. */
  ghost function Trail(env: Env, run: seq<Arrival>, k: nat): seq<LogEntry>
    requires k <= |run|
  {
    if k == 0 then []
    else Trail(env, run, k - 1) + if Named(env, run, k - 1) then [Audit(env, run, k - 1)] else []
  }

  /** All names asked for are ASCII, and no latency is negative. */
  ghost predicate AsciiQueries(env: Env, run: seq<Arrival>) {
    && (forall i, w, q :: 0 <= i < |run| && QuestionVia(env.text, run[i].packet, w, q) ==> AsciiLabels(w))
    && forall i :: 0 <= i < |run| ==> run[i].at.latency >= 0.0
  }

  predicate AsciiLabels(w: seq<DnsNames.Step>) {
    forall k :: 0 <= k < |DnsNames.Labels(w)| ==> AsciiOctets(DnsNames.Labels(w)[k])
  }

  /** The log refuses exactly the queries without a name. */
  lemma RefusedUnnamed(env: Env, run: seq<Arrival>, i: nat)
    requires AsciiText(env.text) && AsciiQueries(env, run) && i < |run| && Parsed(env, run, i)
    ensures var q, r := ParseOf(env.text, run[i].packet).value, ResponseAt(env, run, i);
            Refusal(q.domain, q.queryType, q.queryClass, if r == [] then None else Rcode(r), run[i].at.latency).Some?
            <==> !Named(env, run, i)
  {
    hide AsciiText, ResolveStep, Rcode, Refusal, QuestionVia, LoggedName, Nameable;
    var q, r := ParseOf(env.text, run[i].packet).value, ResponseAt(env, run, i);
    var w :| QuestionVia(env.text, run[i].packet, w, q);
    assert AsciiLabels(w);
    OnlyBlankNamesUnlogged(env.text, run[i].packet, w, q, r, run[i].at.latency);
  }

  lemma LoggedStep(env: Env, capacity: nat, run: seq<Arrival>, k: nat)
    requires AsciiText(env.text) && AsciiQueries(env, run) && k < |run|
    ensures var g, g' := LogBefore(env, capacity, run, k), LogBefore(env, capacity, run, k + 1);
            g'.entries == if Named(env, run, k) then Last(g.entries + [Audit(env, run, k)], capacity) else g.entries
  {
    hide AsciiText, AsciiQueries, ResolveStep, Refusal, LoggedName, Nameable, Last, Rcode, ParseOf, Filed;
    if Parsed(env, run, k) {
      RefusedUnnamed(env, run, k);
    }
  }

  /**
   Over all runs the ring holds the records of the last named queries, as many as it has room
   for, in the order of the queries and each with its query's outcome, whether or not the file
   could be written.
   */
  lemma {:induction false} RingIsTrail(env: Env, capacity: nat, run: seq<Arrival>, k: nat)
    requires capacity > 0 && AsciiText(env.text) && AsciiQueries(env, run) && k <= |run|
    ensures LogBefore(env, capacity, run, k).entries == Last(Trail(env, run, k), capacity)
  {
    hide LogBefore, AsciiText, AsciiQueries, Named, Parsed, Audit, Last, Trail;
    if k == 0 {
      NothingLogged(env, capacity, run);
    } else {
      RingIsTrail(env, capacity, run, k - 1);
      LoggedStep(env, capacity, run, k - 1);
      TrailStep(env, run, k - 1);
      if Named(env, run, k - 1) {
        NamedIsParsed(env, run, k - 1);
        LastMore(Trail(env, run, k - 1), capacity, Audit(env, run, k - 1));
      }
    }
  }

  lemma NothingLogged(env: Env, capacity: nat, run: seq<Arrival>)
    ensures LogBefore(env, capacity, run, 0).entries == Last(Trail(env, run, 0), capacity)
  {
  }

  lemma {:induction false} TrailStep(env: Env, run: seq<Arrival>, k: nat)
    requires k < |run|
    ensures Trail(env, run, k + 1)
            == if Named(env, run, k) then Trail(env, run, k) + [Audit(env, run, k)] else Trail(env, run, k)
  {
    hide Named, Audit;
    assert Trail(env, run, k) + [] == Trail(env, run, k);
  }

  /**
   What the record of a query says, word for word: the name asked for, trimmed and without its
   trailing dots, and how the query ended.
   */
  lemma AuditSays(env: Env, run: seq<Arrival>, i: nat)
    requires i < |run| && Parsed(env, run, i)
    ensures var e, o := Audit(env, run, i), OutcomeAt(env, run, i);
            && NameOf(e.domain, ParseOf(env.text, run[i].packet).value.domain)
            && e.status == (if o.Blocked? then "BLOCKED" else "ALLOWED")
            && e.cache == (if o.Hit? then "HIT" else "MISS")
            && e.upstream == (if o.Answered? then "SUCCESS" else if o.Failed? then "FAILED" else "NOT_USED")
  {
    LoggedNameIsName(ParseOf(env.text, run[i].packet).value.domain);
    hide ResolveStep, ParseOf, LoggedName, NameOf, Rcode;
  }

  // ----- the trail and the counters -----

  /** The record says that its query ended in `o`. */
  predicate Tells(e: LogEntry, o: Outcome) {
    e.status == Status(o) && e.cache == CacheStatus(o) && e.upstream == UpstreamStatus(o)
  }

  /** How a parsed query ended can be read from its record. */
  lemma OutcomeReadable(o: Outcome, o': Outcome)
    requires !o.FormErr? && !o'.FormErr?
    ensures Status(o) == Status(o') && CacheStatus(o) == CacheStatus(o') && UpstreamStatus(o) == UpstreamStatus(o')
            <==> o == o'
  {
  }

  function Telling(trail: seq<LogEntry>, o: Outcome): nat {
    if trail == [] then 0
    else Telling(trail[..|trail| - 1], o) + if Tells(trail[|trail| - 1], o) then 1 else 0
  }

  lemma {:induction false} TellingMore(trail: seq<LogEntry>, e: LogEntry, o: Outcome)
    ensures Telling(trail + [e], o) == Telling(trail, o) + if Tells(e, o) then 1 else 0
  {
    assert (trail + [e])[..|trail|] == trail;
  }

  /** How many of the first `k` queries ended in `o` and left no record. */
  ghost function Unlogged(env: Env, run: seq<Arrival>, k: nat, o: Outcome): nat
    requires k <= |run|
  {
    if k == 0 then 0
    else Unlogged(env, run, k - 1, o)
         + if OutcomeAt(env, run, k - 1) == o && !Named(env, run, k - 1) then 1 else 0
  }

  /** Of every outcome of a parsed query, the trail and the unlogged queries make up all there were. */
  lemma {:induction false} TrailTells(env: Env, run: seq<Arrival>, k: nat, o: Outcome)
    requires k <= |run| && !o.FormErr?
    ensures Times(env, run, k, o) == Telling(Trail(env, run, k), o) + Unlogged(env, run, k, o)
  {
    hide Named, Parsed, Audit, Tells, Telling, Trail, OutcomeAt;
    if k == 0 {
      NothingTold(env, run, o);
    } else {
      TrailTells(env, run, k - 1, o);
      TrailStep(env, run, k - 1);
      if Named(env, run, k - 1) {
        NamedIsParsed(env, run, k - 1);
        AuditTells(env, run, k - 1, o);
        TellingMore(Trail(env, run, k - 1), Audit(env, run, k - 1), o);
      }
    }
  }

  lemma NothingTold(env: Env, run: seq<Arrival>, o: Outcome)
    ensures Telling(Trail(env, run, 0), o) == 0
  {
  }

  /** The record of a query tells of exactly the outcome that the query had. */
  lemma AuditTells(env: Env, run: seq<Arrival>, i: nat, o: Outcome)
    requires i < |run| && Parsed(env, run, i) && !o.FormErr?
    ensures Tells(Audit(env, run, i), o) <==> OutcomeAt(env, run, i) == o
  {
    FormErrExactly(env, NodeAt(env, run, i), run[i]);
    OutcomeReadable(OutcomeAt(env, run, i), o);
    hide ResolveStep, ParseOf, LoggedName, Rcode, Status, CacheStatus, UpstreamStatus;
  }

  /**
   Log and metrics agree over all runs: each counter is the number of records that tell of its
   outcome, and of the queries without a name that ended that way.
   */
  lemma CountersMatchTrail(env: Env, run: seq<Arrival>, k: nat)
    requires WellBehaved(env.lib) && k <= |run|
    ensures var c, trail := NodeAt(env, run, k).counters, Trail(env, run, k);
            && c.cacheHits == Telling(trail, Hit) + Unlogged(env, run, k, Hit)
            && c.blocked == Telling(trail, Blocked) + Unlogged(env, run, k, Blocked)
            && c.upstreamFailures == Telling(trail, Outcome.Failed) + Unlogged(env, run, k, Outcome.Failed)
            && c.upstreamSuccess == Telling(trail, Answered) + Unlogged(env, run, k, Answered)
  {
    hide NodeAt, Times, Telling, Trail, Unlogged;
    NodeTallied(env, run, k);
    TrailTells(env, run, k, Hit);
    TrailTells(env, run, k, Blocked);
    TrailTells(env, run, k, Outcome.Failed);
    TrailTells(env, run, k, Answered);
  }

  // ----- a query that is not logged -----

  /** A query for the root: a header with one question, the empty name, type and class 1. */
  function RootQuery(): seq<byte> {
    [0, 0, 0, 0, 0, 1, 0, 0, 0, 0, 0, 0, 0, 0, 1, 0, 1]
  }

  lemma RootOctets(p: seq<byte>, i: nat)
    requires p == RootQuery() && i < 17
    ensures |p| == 17 && p[i] == if i == 5 || i == 14 || i == 16 then 1 else 0
  {
  }

  lemma RootField(p: seq<byte>, i: nat)
    requires p == RootQuery() && i < 16
    ensures |p| == 17 && Field(p, i) == if i == 4 || i == 13 || i == 15 then 1 else if i == 5 || i == 14 then 256 else 0
  {
    RootOctets(p, i);
    RootOctets(p, i + 1);
    hide RootQuery;
  }

  lemma RootFields(p: seq<byte>)
    requires p == RootQuery()
    ensures |p| == 17 && DnsNames.Ends(p, 12)
    ensures Field(p, 0) == 0 && Field(p, 2) == 0 && Field(p, 4) == 1
    ensures Field(p, 6) == 0 && Field(p, 8) == 0 && Field(p, 10) == 0
    ensures Field(p, 13) == 1 && Field(p, 15) == 1
  {
    hide RootQuery, Field;
    RootOctets(p, 12);
    RootField(p, 0);
    RootField(p, 2);
    RootField(p, 4);
    RootField(p, 6);
    RootField(p, 8);
    RootField(p, 10);
    RootField(p, 13);
    RootField(p, 15);
  }

  lemma RootName(text: Text, none: seq<seq<byte>>)
    requires AsciiText(text) && none == []
    ensures Decodable(text, none) && DomainText(text, none) == "."
  {
    assert Decoded(text, none) == [];
    var empty := Join(Decoded(text, none));
    assert empty == "" && IsAscii(empty) && LowerAscii(empty) == "";
  }

  /** It parses to the name ".". */
  lemma RootQueryParses(text: Text, w: seq<DnsNames.Step>)
    requires AsciiText(text) && w == []
    ensures QuestionVia(text, RootQuery(), w, Query(0, 0, 1, 0, 0, 0, ".", 1, 1))
  {
    hide AsciiText, RootQuery, Field, DomainText;
    RootFields(RootQuery());
    RootName(text, DnsNames.Labels(w));
  }

  /** Trimming leaves nothing of a dot. */
  lemma DotIsBlank(s: string)
    requires s == "."
    ensures LoggedName(s) == ""
  {
    assert Strip(s) == s;
    assert Lower(s) == s;
    assert s[..|s| - 1] == "";
    assert TrimDots("") == "";
  }

  /** So a query for the root is counted and answered but leaves no record. */
  lemma RootQueryUnlogged(env: Env, capacity: nat, run: seq<Arrival>, k: nat)
    requires AsciiText(env.text) && WellBehaved(env.lib) && |run| == 1 && run[0].packet == RootQuery() && k == 1
    ensures NodeAt(env, run, k).counters.total == 1 && OutcomeAt(env, run, 0) != FormErr
    ensures LogBefore(env, capacity, run, k).entries == []
  {
    RootIsRefused(env, capacity, run, k);
    NodeTallied(env, run, k);
    FormErrExactly(env, NodeAt(env, run, 0), run[0]);
    hide AsciiText, WellBehaved, ResolveStep, LogBefore, NodeAt, ParseOf;
  }

  lemma UnnamedLeavesLog(env: Env, n: Node, g: Log, capacity: nat, a: Arrival)
    requires ParseOf(env.text, a.packet).Some? && LoggedName(ParseOf(env.text, a.packet).value.domain) == ""
    ensures LogAfter(env, n, g, capacity, a) == g
  {
    hide ResolveStep, ParseOf, LoggedName, Rcode;
  }

  lemma RootIsRefused(env: Env, capacity: nat, run: seq<Arrival>, k: nat)
    requires AsciiText(env.text) && |run| == 1 && run[0].packet == RootQuery() && k == 1
    ensures Parsed(env, run, 0) && LogBefore(env, capacity, run, k).entries == []
  {
    RootParse(env.text);
    DotIsBlank(".");
    hide AsciiText, RootQuery, LoggedName, NodeAt, ParseOf;
    UnnamedLeavesLog(env, NodeAt(env, run, 0), LogBefore(env, capacity, run, 0), capacity, run[0]);
    hide LogAfter;
  }

  lemma RootParse(text: Text)
    requires AsciiText(text)
    ensures ParseOf(text, RootQuery()).Some? && ParseOf(text, RootQuery()).value.domain == "."
  {
    var root := Query(0, 0, 1, 0, 0, 0, ".", 1, 1);
    RootQueryParses(text, []);
    hide AsciiText, QuestionVia, RootQuery;
    assert ParsesTo(text, RootQuery(), root);
    ParsesToOne(text, RootQuery(), root, ParseOf(text, RootQuery()).value);
  }
}
