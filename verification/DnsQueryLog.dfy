/**
 The query audit log (dns_engine/query_log.py): a bounded ring in memory next to a file of
 records that is pruned at every write and read back at start.
 */
module DnsQueryLog {
  import opened Bytes
  import opened ClientIds

  const PERSISTENCE_SECONDS: real := 86400.0

  datatype LogEntry = LogEntry(timestamp: real, domain: string, queryType: int, queryClass: int,
                               status: string, cache: string, upstream: string, rcode: Option<int>, latency: real)

  /** A line of the file: a record, or anything that does not decode to one. */
  datatype Line = Record(entry: LogEntry) | Garbage

  datatype LogError = EmptyDomain | DomainTooLong | BadType | BadClass | BadRcode | BadLatency

  /** How far writing an entry got: not to the end of the append, not to the end of the pruning, or all the way. */
  datatype Writing = NotAppended | NotPruned | Written

  /** `file` is `None` when there is no file. */
  datatype Log = Log(entries: seq<LogEntry>, file: Option<seq<Line>>)

  // ----- keeping what is fresh and what fits -----

  predicate Fresh(e: LogEntry, now: real) {
    e.timestamp > 0.0 && now - e.timestamp <= PERSISTENCE_SECONDS
  }

  /** A record is fresh until more than 24 hours have passed, also when it is dated ahead. */
  lemma FreshExactly(e: LogEntry, now: real)
    ensures Fresh(e, now) <==> 0.0 < e.timestamp && now <= e.timestamp + 86400.0
  {
  }

  function KeepFresh(s: seq<LogEntry>, now: real): seq<LogEntry> {
    if s == [] then []
    else KeepFresh(s[..|s| - 1], now) + if Fresh(s[|s| - 1], now) then [s[|s| - 1]] else []
  }

  function RecordsIn(lines: seq<Line>): seq<LogEntry> {
    if lines == [] then []
    else RecordsIn(lines[..|lines| - 1]) + if lines[|lines| - 1].Record? then [lines[|lines| - 1].entry] else []
  }

  function Records(s: seq<LogEntry>): (r: seq<Line>)
    ensures |r| == |s|
  {
    seq(|s|, i requires 0 <= i < |s| => Record(s[i]))
  }

  function FileEntries(file: Option<seq<Line>>): seq<LogEntry> {
    if file.None? then [] else RecordsIn(file.value)
  }

  function Last(s: seq<LogEntry>, n: nat): seq<LogEntry> {
    if |s| <= n then s else s[|s| - n..]
  }

  // ----- sorting by time, equal times in file order -----

  predicate Sorted(s: seq<LogEntry>) {
    forall i, j :: 0 <= i <= j < |s| ==> s[i].timestamp <= s[j].timestamp
  }

  function Insert(s: seq<LogEntry>, e: LogEntry): seq<LogEntry> {
    if s == [] || s[|s| - 1].timestamp <= e.timestamp then s + [e]
    else Insert(s[..|s| - 1], e) + [s[|s| - 1]]
  }

  function SortByTime(s: seq<LogEntry>): seq<LogEntry> {
    if s == [] then [] else Insert(SortByTime(s[..|s| - 1]), s[|s| - 1])
  }

  lemma {:induction false} InsertStep(s: seq<LogEntry>, e: LogEntry)
    requires s != [] && s[|s| - 1].timestamp > e.timestamp
    ensures s == s[..|s| - 1] + [s[|s| - 1]]
    ensures Insert(s, e) == Insert(s[..|s| - 1], e) + [s[|s| - 1]]
  {
  }

  lemma {:induction false} InsertAtEnd(s: seq<LogEntry>, e: LogEntry)
    requires s == [] || s[|s| - 1].timestamp <= e.timestamp
    ensures Insert(s, e) == s + [e]
  {
  }

  lemma {:induction false} InsertAdds(s: seq<LogEntry>, e: LogEntry)
    ensures multiset(Insert(s, e)) == multiset(s) + multiset{e}
  {
    if s == [] || s[|s| - 1].timestamp <= e.timestamp {
    } else {
      InsertStep(s, e);
      InsertAdds(s[..|s| - 1], e);
    }
  }

  lemma InsertMembers(s: seq<LogEntry>, e: LogEntry)
    ensures forall x :: x in Insert(s, e) ==> x in s || x == e
  {
    InsertAdds(s, e);
    hide Insert;
    assert forall x :: x in Insert(s, e) ==> x in multiset(Insert(s, e));
  }

  lemma {:induction false} InsertSorted(s: seq<LogEntry>, e: LogEntry)
    requires Sorted(s)
    ensures Sorted(Insert(s, e))
  {
    if s == [] || s[|s| - 1].timestamp <= e.timestamp {
      InsertAtEnd(s, e);
      SortedAtEnd(s, e);
    } else {
      var front, last := s[..|s| - 1], s[|s| - 1];
      InsertStep(s, e);
      assert forall x :: x in front ==> x.timestamp <= last.timestamp;
      InsertSorted(front, e);
      InsertMembers(front, e);
      hide Insert;
      SortedAtEnd(Insert(front, e), last);
    }
  }

  lemma SortedAtEnd(s: seq<LogEntry>, e: LogEntry)
    requires Sorted(s) && forall x :: x in s ==> x.timestamp <= e.timestamp
    ensures Sorted(s + [e])
  {
  }

  lemma {:induction false} SortStep(s: seq<LogEntry>)
    requires s != []
    ensures s == s[..|s| - 1] + [s[|s| - 1]]
    ensures SortByTime(s) == Insert(SortByTime(s[..|s| - 1]), s[|s| - 1])
  {
  }

  lemma {:induction false} SortIsSorted(s: seq<LogEntry>)
    ensures Sorted(SortByTime(s)) && multiset(SortByTime(s)) == multiset(s)
  {
    if s == [] {
    } else {
      SortStep(s);
      SortIsSorted(s[..|s| - 1]);
      hide SortByTime, Sorted;
      InsertSorted(SortByTime(s[..|s| - 1]), s[|s| - 1]);
      InsertAdds(SortByTime(s[..|s| - 1]), s[|s| - 1]);
      hide Insert;
    }
  }

  lemma SortedMembers(s: seq<LogEntry>)
    ensures |SortByTime(s)| == |s| && forall e :: e in SortByTime(s) <==> e in s
  {
    SortIsSorted(s);
    hide SortByTime;
    assert |SortByTime(s)| == |multiset(SortByTime(s))| == |multiset(s)|;
    assert forall e :: e in SortByTime(s) <==> e in multiset(SortByTime(s));
    assert forall e :: e in s <==> e in multiset(s);
  }

  /** From position `cut` on, no entry is older than one before it. */
  predicate OrderedFrom(s: seq<LogEntry>, cut: nat) {
    forall i, j :: 0 <= i <= j < |s| && cut <= j ==> s[i].timestamp <= s[j].timestamp
  }

  /** Sorting leaves an ordered end where it is. */
  lemma {:induction false} SortKeepsEnd(s: seq<LogEntry>, cut: nat)
    requires cut <= |s| && OrderedFrom(s, cut)
    ensures SortByTime(s) == SortByTime(s[..cut]) + s[cut..]
  {
    hide SortByTime, Insert;
    if |s| == cut {
      assert s[..cut] == s && s[cut..] == [];
    } else {
      var front, last := s[..|s| - 1], s[|s| - 1];
      SortKeepsEnd(front, cut);
      SortStep(s);
      SortedMembers(front);
      assert forall x :: x in front ==> x.timestamp <= last.timestamp;
      assert SortByTime(front) == [] || SortByTime(front)[|front| - 1] in SortByTime(front);
      hide OrderedFrom;
      InsertAtEnd(SortByTime(front), last);
      assert front[..cut] == s[..cut] && s[cut..] == front[cut..] + [last];
    }
  }

  lemma SortOfSorted(s: seq<LogEntry>)
    requires Sorted(s)
    ensures SortByTime(s) == s
  {
    SortKeepsEnd(s, 0);
    assert s[..0] == [] && s[0..] == s;
  }

  // ----- the operations on values -----

  function Lines(file: Option<seq<Line>>): seq<Line> {
    if file.None? then [] else file.value
  }

  /** The file after an entry has been written, as far as that got. */
  function Filed(file: Option<seq<Line>>, e: LogEntry, writing: Writing): Option<seq<Line>> {
    match writing
    case NotAppended => file
    case NotPruned => Some(Lines(file) + [Line.Record(e)])
    case Written => Some(Records(KeepFresh(FileEntries(file) + [e], e.timestamp)))
  }

  function Appended(g: Log, capacity: nat, e: LogEntry, writing: Writing): Log {
    Log(Last(g.entries + [e], capacity), Filed(g.file, e, writing))
  }

  /**
   Reading the file back at start: fresh records in time order, the newest of them in the ring.
   The file is rewritten with them, unless that fails.
   */
  function Loaded(g: Log, capacity: nat, now: real, rewritten: bool): Log {
    if g.file.None? then Log([], None)
    else
      var valid := SortByTime(KeepFresh(RecordsIn(g.file.value), now));
      Log(Last(valid, capacity), if rewritten then Some(Records(valid)) else g.file)
  }

  function Cleared(g: Log, unlinked: bool): Log {
    Log([], if unlinked then None else g.file)
  }

  // ----- facts -----

  lemma {:induction false} RecordsRoundTrip(s: seq<LogEntry>)
    ensures RecordsIn(Records(s)) == s
  {
    if s == [] {
    } else {
      assert Records(s)[..|s| - 1] == Records(s[..|s| - 1]);
      RecordsRoundTrip(s[..|s| - 1]);
      assert s == s[..|s| - 1] + [s[|s| - 1]];
    }
  }

  lemma {:induction false} KeepFreshMore(s: seq<LogEntry>, e: LogEntry, now: real)
    ensures KeepFresh(s + [e], now) == KeepFresh(s, now) + if Fresh(e, now) then [e] else []
  {
    assert (s + [e])[..|s|] == s;
  }

  /** Exactly the entries from position `i` on are fresh. */
  predicate FreshFrom(s: seq<LogEntry>, now: real, i: nat) {
    i <= |s| && forall k :: 0 <= k < |s| ==> (Fresh(s[k], now) <==> i <= k)
  }

  lemma NoneFresh(s: seq<LogEntry>, now: real)
    requires |s| == 0
    ensures KeepFresh(s, now) == s
  {
  }

  lemma {:induction false} KeepFreshFrom(s: seq<LogEntry>, now: real, i: nat)
    requires FreshFrom(s, now, i)
    ensures KeepFresh(s, now) == s[i..]
  {
    hide KeepFresh;
    if s == [] {
      NoneFresh(s, now);
    } else {
      var front, last := s[..|s| - 1], s[|s| - 1];
      assert s == front + [last];
      KeepFreshMore(front, last, now);
      assert FreshFrom(front, now, if i < |s| then i else i - 1);
      assert Fresh(last, now) <==> i < |s|;
      hide FreshFrom, Fresh;
      if i < |s| {
        KeepFreshFrom(front, now, i);
        assert s[i..] == front[i..] + [last];
      } else {
        KeepFreshFrom(front, now, i - 1);
        assert front[i - 1..] == [] == s[i..];
      }
    }
  }

  lemma FirstFresh(s: seq<LogEntry>, now: real) returns (i: nat)
    requires Sorted(s) && forall k :: 0 <= k < |s| ==> s[k].timestamp > 0.0
    ensures FreshFrom(s, now, i)
  {
    i := |s|;
    while i > 0 && Fresh(s[i - 1], now)
      invariant i <= |s| && forall k :: i <= k < |s| ==> Fresh(s[k], now)
    {
      i := i - 1;
    }
  }

  /** In time order, what is fresh is what stands at the end. */
  lemma {:induction false} FreshIsSuffix(s: seq<LogEntry>, now: real) returns (i: nat)
    requires Sorted(s) && forall k :: 0 <= k < |s| ==> s[k].timestamp > 0.0
    ensures FreshFrom(s, now, i) && KeepFresh(s, now) == s[i..]
  {
    i := FirstFresh(s, now);
    KeepFreshFrom(s, now, i);
  }

  /** The fresh part of a later part begins at whichever of the two begins later. */
  lemma LaterPartFresh(s: seq<LogEntry>, cut: nat, now: real) returns (i: nat)
    requires Sorted(s) && cut <= |s| && forall k :: 0 <= k < |s| ==> s[k].timestamp > 0.0
    ensures i <= |s| && KeepFresh(s, now) == s[i..]
    ensures KeepFresh(s[cut..], now) == if i <= cut then s[cut..] else s[i..]
  {
    i := FreshIsSuffix(s, now);
    hide KeepFresh, Fresh;
    var late, j := s[cut..], if i <= cut then 0 else i - cut;
    forall k | 0 <= k < |late|
      ensures Fresh(late[k], now) <==> j <= k
    {
      assert late[k] == s[cut + k];
    }
    KeepFreshFrom(late, now, j);
    assert late[j..] == if i <= cut then late else s[i..];
  }

  /** Dropping the stale and then the surplus, or the surplus and then the stale, leaves the same. */
  lemma FreshAndLastCommute(s: seq<LogEntry>, capacity: nat, now: real)
    requires Sorted(s) && forall k :: 0 <= k < |s| ==> s[k].timestamp > 0.0
    ensures KeepFresh(Last(s, capacity), now) == Last(KeepFresh(s, now), capacity)
  {
    hide KeepFresh;
    if |s| > capacity {
      var cut := |s| - capacity;
      var i := LaterPartFresh(s, cut, now);
      LastOfSuffix(s, i, capacity);
      assert Last(s, capacity) == s[cut..];
      assert Last(KeepFresh(s, now), capacity) == if i <= cut then s[cut..] else s[i..];
    } else {
      var i := FreshIsSuffix(s, now);
      LastOfSuffix(s, i, capacity);
      assert Last(KeepFresh(s, now), capacity) == KeepFresh(s, now);
    }
  }

  lemma LastOfSuffix(s: seq<LogEntry>, i: nat, capacity: nat)
    requires i <= |s|
    ensures Last(s[i..], capacity) == if |s| - i <= capacity then s[i..] else s[|s| - capacity..]
  {
    if |s| - i > capacity {
      assert s[i..][|s| - i - capacity..] == s[|s| - capacity..];
    }
  }

  lemma {:induction false} FreshTwice(s: seq<LogEntry>, was: real, now: real)
    requires was <= now
    ensures KeepFresh(KeepFresh(s, was), now) == KeepFresh(s, now)
  {
    if s == [] {
    } else {
      FreshTwice(s[..|s| - 1], was, now);
      var kept := KeepFresh(s[..|s| - 1], was);
      if Fresh(s[|s| - 1], was) {
        KeepFreshMore(kept, s[|s| - 1], now);
      } else {
        assert kept + [] == kept;
      }
    }
  }

  // ----- the ring and the file tell the same story -----

  /** `all` are the records kept since the last start or clearing; the ring is their end, the file their fresh part. */
  ghost predicate Synced(g: Log, capacity: nat, all: seq<LogEntry>, now: real) {
    && Sorted(all) && (forall k :: 0 <= k < |all| ==> 0.0 < all[k].timestamp <= now)
    && g.entries == Last(all, capacity)
    && KeepFresh(FileEntries(g.file), now) == KeepFresh(all, now)
  }

  lemma AppendSynced(g: Log, capacity: nat, all: seq<LogEntry>, now: real, e: LogEntry, writing: Writing)
    requires Synced(g, capacity, all, now) && capacity > 0 && 0.0 < e.timestamp && now <= e.timestamp
    requires !writing.NotAppended?
    ensures Synced(Appended(g, capacity, e, writing), capacity, all + [e], e.timestamp)
  {
    hide KeepFresh, RecordsIn, FileEntries, Last, Records, Filed;
    var t, filed := e.timestamp, FileEntries(g.file);
    FiledFresh(g.file, e, writing);
    LastMore(all, capacity, e);
    KeepFreshMore(filed, e, t);
    KeepFreshMore(all, e, t);
    FreshTwice(filed, now, t);
    FreshTwice(all, now, t);
  }

  /** Pruned or not, the fresh records in the file are the same. */
  lemma FiledFresh(file: Option<seq<Line>>, e: LogEntry, writing: Writing)
    requires !writing.NotAppended?
    ensures KeepFresh(FileEntries(Filed(file, e, writing)), e.timestamp)
            == KeepFresh(FileEntries(file) + [e], e.timestamp)
  {
    hide KeepFresh;
    if writing.NotPruned? {
      OneMoreRecord(Lines(file), e);
    } else {
      RecordsRoundTrip(KeepFresh(FileEntries(file) + [e], e.timestamp));
      FreshTwice(FileEntries(file) + [e], e.timestamp, e.timestamp);
    }
  }

  lemma OneMoreRecord(lines: seq<Line>, e: LogEntry)
    ensures RecordsIn(lines + [Line.Record(e)]) == RecordsIn(lines) + [e]
  {
    assert (lines + [Line.Record(e)])[..|lines|] == lines;
  }

  lemma LastMore(all: seq<LogEntry>, capacity: nat, e: LogEntry)
    requires capacity > 0
    ensures Last(Last(all, capacity) + [e], capacity) == Last(all + [e], capacity)
  {
  }

  /**
   Restart equivalence: whatever was recorded with non-decreasing positive timestamps and
   successful appends, reloading at a later time gives the ring in memory with the entries older
   than 24 hours removed, in the same order; and ring and file go on telling the same story.
   It does not matter whether the file could be pruned or rewritten.
   */
  lemma RestartKeepsRing(g: Log, capacity: nat, all: seq<LogEntry>, was: real, now: real, rewritten: bool)
    requires Synced(g, capacity, all, was) && was <= now
    ensures Loaded(g, capacity, now, rewritten).entries == KeepFresh(g.entries, now)
    ensures Synced(Loaded(g, capacity, now, rewritten), capacity, KeepFresh(all, now), now)
  {
    hide KeepFresh, SortByTime, Last, Records, RecordsIn, FileEntries, Sorted, Loaded;
    var kept := KeepFresh(all, now);
    FreshTwice(FileEntries(g.file), was, now);
    FreshTwice(all, was, now);
    FreshTwice(all, now, now);
    FreshAndLastCommute(all, capacity, now);
    FreshStaysSorted(all, now);
    SortOfSorted(kept);
    LoadedFresh(g, capacity, now, rewritten, kept);
  }

  /** Reloading a file whose fresh records are in order. */
  lemma LoadedFresh(g: Log, capacity: nat, now: real, rewritten: bool, kept: seq<LogEntry>)
    requires KeepFresh(FileEntries(g.file), now) == kept && SortByTime(kept) == kept
    ensures Loaded(g, capacity, now, rewritten).entries == Last(kept, capacity)
    ensures KeepFresh(FileEntries(Loaded(g, capacity, now, rewritten).file), now) == kept
  {
    assert KeepFresh([], now) == [];
    FreshTwice(FileEntries(g.file), now, now);
    RecordsRoundTrip(kept);
    hide KeepFresh, SortByTime, RecordsIn, Records;
  }

  lemma FreshStaysSorted(s: seq<LogEntry>, now: real)
    requires Sorted(s) && forall k :: 0 <= k < |s| ==> 0.0 < s[k].timestamp <= now
    ensures var kept := KeepFresh(s, now);
            Sorted(kept) && forall k :: 0 <= k < |kept| ==> 0.0 < kept[k].timestamp <= now
  {
    var i := FreshIsSuffix(s, now);
  }

  // ----- the object -----

  /** The string without the dots at its end. */
  function TrimDots(s: string): (r: string)
    ensures |r| <= |s| && r == s[..|r|]
    ensures forall i :: |r| <= i < |s| ==> s[i] == '.'
    ensures r == "" || r[|r| - 1] != '.'
  {
    if s != "" && s[|s| - 1] == '.' then TrimDots(s[..|s| - 1]) else s
  }

  /** The name as it is logged: trimmed, in lower case, without trailing dots. */
  function LoggedName(domain: string): string {
    TrimDots(Lower(Strip(domain)))
  }

  /** Without outer white space the name still has a character other than a dot. */
  predicate Nameable(domain: string) {
    exists i :: 0 <= i < |Strip(domain)| && Strip(domain)[i] != '.'
  }

  /** `name` is the domain in lower case, without outer white space and without the dots at its end. */
  predicate NameOf(name: string, domain: string) {
    var trimmed := Lower(Strip(domain));
    && |name| <= |trimmed| && name == trimmed[..|name|]
    && (forall i :: |name| <= i < |trimmed| ==> trimmed[i] == '.')
    && (name == "" || name[|name| - 1] != '.')
  }

  lemma LoggedNameIsName(domain: string)
    ensures NameOf(LoggedName(domain), domain)
  {
  }

  /** Something is left of a name exactly when it has a character other than a dot. */
  lemma NameableExactly(domain: string)
    ensures Nameable(domain) <==> LoggedName(domain) != ""
  {
    hide Strip;
    var t := Strip(domain);
    DotsStay(t);
    LoggedNameIsName(domain);
    if LoggedName(domain) != "" {
      var n := |LoggedName(domain)|;
      assert LoggedName(domain)[n - 1] == Lower(t)[n - 1];
    }
  }

  lemma DotsStay(t: string)
    ensures forall i :: 0 <= i < |t| ==> (Lower(t)[i] == '.' <==> t[i] == '.')
  {
  }

  function Refusal(domain: string, queryType: int, queryClass: int, rcode: Option<int>, latency: real)
    : Option<LogError>
  {
    if LoggedName(domain) == "" then Some(EmptyDomain)
    else if |LoggedName(domain)| > 253 then Some(DomainTooLong)
    else if !(0 <= queryType <= 65535) then Some(BadType)
    else if !(0 <= queryClass <= 65535) then Some(BadClass)
    else if rcode.Some? && !(0 <= rcode.value <= 15) then Some(BadRcode)
    else if latency < 0.0 then Some(BadLatency)
    else None
  }

  lemma {:induction false} StripShorter(s: string)
    ensures |Strip(s)| <= |s|
  {
    if s == "" {
    } else {
      if IsSpace(s[0]) {
        StripShorter(s[1..]);
      } else if IsSpace(s[|s| - 1]) {
        StripShorter(s[..|s| - 1]);
      }
    }
  }

  /** A name of at most 253 characters is never too long for the log. */
  lemma ShortNameFits(domain: string)
    requires |domain| <= 253
    ensures |LoggedName(domain)| <= 253
  {
    StripShorter(domain);
  }

  class DNSQueryLog {
    const maxEntries: nat
    var entries: seq<LogEntry>
    var file: Option<seq<Line>>

    ghost predicate Valid()
      reads this
    {
      maxEntries > 0 && |entries| <= maxEntries
    }

    ghost function Now(): Log
      reads this
    {
      Log(entries, file)
    }

    /** At start the file is read back; without a file the log is empty. */
    constructor (maxEntries: nat, file: Option<seq<Line>>, now: real, rewritten: bool)
      requires maxEntries > 0
      ensures Valid() && this.maxEntries == maxEntries
      ensures Now() == Loaded(Log([], file), maxEntries, now, rewritten)
    {
      this.maxEntries := maxEntries;
      this.entries := [];
      this.file := file;
      new;
      CleanupAndLoad(now, rewritten);
    }

    /** The fresh records of the file, in file order. */
    method ReadFresh(lines: seq<Line>, now: real) returns (valid: seq<LogEntry>)
      ensures valid == KeepFresh(RecordsIn(lines), now)
    {
      valid := [];
      for i := 0 to |lines|
        invariant valid == KeepFresh(RecordsIn(lines[..i]), now)
      {
        assert lines[..i + 1][..i] == lines[..i];
        assert RecordsIn(lines[..i]) + [] == RecordsIn(lines[..i]);
        if lines[i].Record? {
          assert valid + [] == valid;
          KeepFreshMore(RecordsIn(lines[..i]), lines[i].entry, now);
          if Fresh(lines[i].entry, now) {
            valid := valid + [lines[i].entry];
          }
        }
      }
      assert lines[..|lines|] == lines;
    }

    /** The ring is loaded before the file is rewritten, so a rewrite that fails costs nothing but the pruning. */
    method CleanupAndLoad(now: real, rewritten: bool)
      requires maxEntries > 0 && entries == []
      modifies this
      ensures Valid() && Now() == Loaded(old(Now()), maxEntries, now, rewritten)
    {
      if file.None? {
        return;
      }
      var valid := ReadFresh(file.value, now);
      valid := SortByTime(valid);
      entries := Last(valid, maxEntries);
      if rewritten {
        file := Some(Records(valid));
      }
    }

    method CleanupExpired(now: real)
      modifies this`file
      ensures file == if old(file).None? then None
                      else Some(Records(KeepFresh(RecordsIn(old(file).value), now)))
    {
      if file.None? {
        return;
      }
      var valid := ReadFresh(file.value, now);
      file := Some(Records(valid));
    }

    /** One entry to the ring, and to the file as far as writing gets; the ring has it in any case. */
    method Record(timestamp: real, domain: string, queryType: int, queryClass: int, status: string, cache: string,
                  upstream: string, rcode: Option<int>, latency: real, writing: Writing)
      returns (r: Option<LogError>)
      requires Valid()
      modifies this
      ensures Valid() && r == Refusal(domain, queryType, queryClass, rcode, latency)
      ensures r == if !Nameable(domain) then Some(EmptyDomain)
                   else if |LoggedName(domain)| > 253 then Some(DomainTooLong)
                   else if !(0 <= queryType <= 65535) then Some(BadType)
                   else if !(0 <= queryClass <= 65535) then Some(BadClass)
                   else if rcode.Some? && !(0 <= rcode.value <= 15) then Some(BadRcode)
                   else if latency < 0.0 then Some(BadLatency)
                   else None
      ensures r.Some? ==> Now() == old(Now())
      ensures r.None? ==>
        var e := LogEntry(timestamp, LoggedName(domain), queryType, queryClass, status, cache, upstream, rcode,
                          latency);
        Now() == Appended(old(Now()), maxEntries, e, writing)
    {
      r := Refusal(domain, queryType, queryClass, rcode, latency);
      NameableExactly(domain);
      hide Nameable, LoggedName;
      if r.Some? {
        return;
      }
      var name := LoggedName(domain);
      var entry := LogEntry(timestamp, name, queryType, queryClass, status, cache, upstream, rcode, latency);
      entries := if |entries| < maxEntries then entries + [entry] else entries[1..] + [entry];
      WritePersistent(entry, writing);
    }

    /** The append, and after it the pruning; an error ends it at once. */
    method WritePersistent(entry: LogEntry, writing: Writing)
      modifies this`file
      ensures file == Filed(old(file), entry, writing)
    {
      hide KeepFresh, Records;
      if writing.NotAppended? {
        return;
      }
      OneMoreRecord(Lines(file), entry);
      file := Some(Lines(file) + [Line.Record(entry)]);
      if writing.NotPruned? {
        return;
      }
      CleanupExpired(entry.timestamp);
    }

    /** The newest entries first. */
    method Recent(limit: int) returns (r: seq<LogEntry>)
      requires Valid()
      ensures var wanted := if limit < 1 then 1 else if limit < maxEntries then limit else maxEntries;
              |r| == if |entries| <= wanted then |entries| else wanted
      ensures forall k :: 0 <= k < |r| ==> r[k] == entries[|entries| - 1 - k]
    {
      var wanted := if limit < maxEntries then limit else maxEntries;
      if wanted < 1 {
        wanted := 1;
      }
      var newest := Last(entries, wanted);
      r := seq(|newest|, k requires 0 <= k < |newest| => newest[|newest| - 1 - k]);
    }

    /** The ring is emptied in any case; removing the file can fail. */
    method Clear(unlinked: bool)
      requires Valid()
      modifies this
      ensures Valid() && Now() == Cleared(old(Now()), unlinked)
    {
      entries := [];
      if unlinked {
        file := None;
      }
    }
  }
}
