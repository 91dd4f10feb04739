/**
 Whole runs of the query log (dns_engine/query_log.py): what a restart gives back, with a clock
 that runs forwards and writes that may fail, and with timestamps given by the caller.
 */
module DnsQueryLogRuns {
  import opened Bytes
  import opened DnsQueryLog

  // ----- the clock runs forwards -----

  /** An addition and how far writing it got; a restart; a clearing, whose removal of the file can fail. */
  datatype LogOp =
    | Add(entry: LogEntry, writing: Writing)
    | Restart(now: real, rewritten: bool)
    | Erase(now: real, unlinked: bool)

  function OpTime(op: LogOp): real {
    match op
    case Add(e, writing) => e.timestamp
    case Restart(now, rewritten) => now
    case Erase(now, unlinked) => now
  }

  function ApplyOp(g: Log, capacity: nat, op: LogOp): Log {
    match op
    case Add(e, writing) => Appended(g, capacity, e, writing)
    case Restart(now, rewritten) => Loaded(g, capacity, now, rewritten)
    case Erase(now, unlinked) => Cleared(g, unlinked)
  }

  function LogAt(capacity: nat, ops: seq<LogOp>, k: nat): Log
    requires k <= |ops|
  {
    if k == 0 then Log([], None) else ApplyOp(LogAt(capacity, ops, k - 1), capacity, ops[k - 1])
  }

  predicate TimesAscend(ops: seq<LogOp>) {
    forall i, j :: 0 <= i <= j < |ops| ==> 0.0 < OpTime(ops[i]) <= OpTime(ops[j])
  }

  function TimeAt(ops: seq<LogOp>, k: nat): real
    requires k <= |ops|
  {
    if k == 0 then 0.0 else OpTime(ops[k - 1])
  }

  /** The records that reached the file since it was last removed, in the order in which they were added. */
  function FiledAt(ops: seq<LogOp>, k: nat): seq<LogEntry>
    requires k <= |ops|
  {
    if k == 0 then []
    else
      match ops[k - 1]
      case Add(e, writing) => FiledAt(ops, k - 1) + if writing.NotAppended? then [] else [e]
      case Restart(now, rewritten) => FiledAt(ops, k - 1)
      case Erase(now, unlinked) => if unlinked then [] else FiledAt(ops, k - 1)
  }

  /** The records are in time order up to `now`, and what is fresh of them is what is fresh in the file. */
  ghost predicate InFile(file: Option<seq<Line>>, filed: seq<LogEntry>, now: real) {
    && Sorted(filed) && (forall k :: 0 <= k < |filed| ==> 0.0 < filed[k].timestamp <= now)
    && KeepFresh(FileEntries(file), now) == KeepFresh(filed, now)
  }

  lemma LaterInFile(file: Option<seq<Line>>, filed: seq<LogEntry>, was: real, now: real)
    requires InFile(file, filed, was) && was <= now
    ensures InFile(file, filed, now)
  {
    FreshTwice(FileEntries(file), was, now);
    FreshTwice(filed, was, now);
    hide KeepFresh, FileEntries;
  }

  lemma AddedInFile(file: Option<seq<Line>>, filed: seq<LogEntry>, e: LogEntry, writing: Writing)
    requires InFile(file, filed, e.timestamp) && 0.0 < e.timestamp && !writing.NotAppended?
    ensures InFile(Filed(file, e, writing), filed + [e], e.timestamp)
  {
    hide KeepFresh, FileEntries, Filed;
    FiledFresh(file, e, writing);
    KeepFreshMore(FileEntries(file), e, e.timestamp);
    KeepFreshMore(filed, e, e.timestamp);
  }

  lemma LoadedInFile(g: Log, capacity: nat, filed: seq<LogEntry>, now: real, rewritten: bool)
    requires InFile(g.file, filed, now)
    ensures InFile(Loaded(g, capacity, now, rewritten).file, filed, now)
    ensures Loaded(g, capacity, now, rewritten).entries == Last(KeepFresh(filed, now), capacity)
  {
    FreshStaysSorted(filed, now);
    SortOfSorted(KeepFresh(filed, now));
    hide KeepFresh, FileEntries, Loaded, SortByTime, Last;
    LoadedFresh(g, capacity, now, rewritten, KeepFresh(filed, now));
  }

  lemma {:induction false} RunFiled(capacity: nat, ops: seq<LogOp>, k: nat)
    requires TimesAscend(ops) && k <= |ops|
    ensures InFile(LogAt(capacity, ops, k).file, FiledAt(ops, k), TimeAt(ops, k))
  {
    hide InFile, Loaded, Filed, Last;
    if k == 0 {
      NothingInFile(TimeAt(ops, k));
    } else {
      var g, filed, now := LogAt(capacity, ops, k - 1), FiledAt(ops, k - 1), TimeAt(ops, k);
      RunFiled(capacity, ops, k - 1);
      LaterInFile(g.file, filed, TimeAt(ops, k - 1), now);
      match ops[k - 1]
      case Add(e, writing) =>
        if writing.NotAppended? {
          assert filed + [] == filed;
          assert Filed(g.file, e, writing) == g.file by { FailedAppend(g.file, e); }
        } else {
          AddedInFile(g.file, filed, e, writing);
        }
      case Restart(now, rewritten) => LoadedInFile(g, capacity, filed, now, rewritten);
      case Erase(now, unlinked) => NothingInFile(now);
    }
  }

  lemma NothingInFile(now: real)
    ensures InFile(None, [], now)
  {
  }

  lemma FailedAppend(file: Option<seq<Line>>, e: LogEntry)
    ensures Filed(file, e, NotAppended) == file
  {
  }

  /**
   What a restart gives in every run, whatever writes fail on the way: the newest of the fresh
   records that reached the file since it was last removed.
   */
  lemma RunReloads(capacity: nat, ops: seq<LogOp>, k: nat)
    requires TimesAscend(ops) && k < |ops| && ops[k].Restart?
    ensures LogAt(capacity, ops, k + 1).entries == Last(KeepFresh(FiledAt(ops, k), ops[k].now), capacity)
  {
    hide InFile, Loaded, Last, KeepFresh;
    var g, filed := LogAt(capacity, ops, k), FiledAt(ops, k);
    RunFiled(capacity, ops, k);
    LaterInFile(g.file, filed, TimeAt(ops, k), ops[k].now);
    LoadedInFile(g, capacity, filed, ops[k].now, ops[k].rewritten);
  }

  /** No append fails, and no clearing fails to remove the file. */
  predicate ReachesFile(ops: seq<LogOp>) {
    forall i :: 0 <= i < |ops| ==>
      match ops[i]
      case Add(e, writing) => !writing.NotAppended?
      case Restart(now, rewritten) => true
      case Erase(now, unlinked) => unlinked
  }

  ghost predicate SyncedSince(g: Log, capacity: nat, now: real) {
    exists all :: Synced(g, capacity, all, now)
  }

  lemma NextSynced(g: Log, capacity: nat, was: real, op: LogOp)
    requires capacity > 0 && SyncedSince(g, capacity, was) && was <= OpTime(op) && 0.0 < OpTime(op)
    requires !(op.Add? && op.writing.NotAppended?) && !(op.Erase? && !op.unlinked)
    ensures SyncedSince(ApplyOp(g, capacity, op), capacity, OpTime(op))
  {
    hide Synced, Appended, Loaded;
    var all :| Synced(g, capacity, all, was);
    match op
    case Add(e, writing) => AppendSynced(g, capacity, all, was, e, writing);
    case Restart(now, rewritten) => RestartKeepsRing(g, capacity, all, was, now, rewritten);
    case Erase(now, unlinked) => NothingSynced(capacity, now);
  }

  lemma NothingSynced(capacity: nat, now: real)
    ensures Synced(Log([], None), capacity, [], now)
  {
  }

  lemma {:induction false} RunSynced(capacity: nat, ops: seq<LogOp>, k: nat)
    requires capacity > 0 && TimesAscend(ops) && ReachesFile(ops) && k <= |ops|
    ensures SyncedSince(LogAt(capacity, ops, k), capacity, TimeAt(ops, k))
  {
    hide SyncedSince, ApplyOp;
    if k == 0 {
      NothingSynced(capacity, 0.0);
      SyncedByAll(LogAt(capacity, ops, 0), capacity, [], 0.0);
    } else {
      RunSynced(capacity, ops, k - 1);
      NextSynced(LogAt(capacity, ops, k - 1), capacity, TimeAt(ops, k - 1), ops[k - 1]);
    }
  }

  lemma SyncedByAll(g: Log, capacity: nat, all: seq<LogEntry>, now: real)
    requires Synced(g, capacity, all, now)
    ensures SyncedSince(g, capacity, now)
  {
  }

  /**
   Restart equivalence over runs: when appends and removals of the file succeed, a restart drops
   the stale entries of the ring and nothing else, whether or not pruning and rewriting the file
   succeeded.
   */
  lemma RunRestart(capacity: nat, ops: seq<LogOp>, k: nat)
    requires capacity > 0 && TimesAscend(ops) && ReachesFile(ops) && k < |ops| && ops[k].Restart?
    ensures LogAt(capacity, ops, k + 1).entries == KeepFresh(LogAt(capacity, ops, k).entries, ops[k].now)
  {
    RunSynced(capacity, ops, k);
    var g, was := LogAt(capacity, ops, k), TimeAt(ops, k);
    var all :| Synced(g, capacity, all, was);
    RestartKeepsRing(g, capacity, all, was, ops[k].now, ops[k].rewritten);
  }

  // ----- timestamps given by the caller -----

  lemma {:induction false} KeepFreshAdd(s: seq<LogEntry>, u: seq<LogEntry>, now: real)
    ensures KeepFresh(s + u, now) == KeepFresh(s, now) + KeepFresh(u, now)
  {
    if u == [] {
      assert s + u == s;
    } else {
      var front, last := u[..|u| - 1], u[|u| - 1];
      KeepFreshAdd(s, front, now);
      assert u == front + [last] && s + u == s + front + [last];
      KeepFreshMore(s + front, last, now);
      KeepFreshMore(front, last, now);
      hide KeepFresh;
      var fresher := if Fresh(last, now) then [last] else [];
      var before, more := KeepFresh(s, now), KeepFresh(front, now);
      assert before + more + fresher == before + (more + fresher);
    }
  }

  lemma {:induction false} FreshIsFewer(s: seq<LogEntry>, now: real)
    ensures |KeepFresh(s, now)| <= |s|
  {
    if s == [] {
    } else {
      FreshIsFewer(s[..|s| - 1], now);
    }
  }

  /** And only an ordered end. */
  lemma EndKeptBySort(s: seq<LogEntry>, cut: nat)
    requires cut <= |s| && |SortByTime(s)| == |s| && SortByTime(s)[cut..] == s[cut..]
    ensures OrderedFrom(s, cut)
  {
    SortIsSorted(s);
    hide SortByTime;
    var sorted := SortByTime(s);
    SamePrefixMembers(sorted, s, cut);
    forall i, j | 0 <= i <= j < |s| && cut <= j
      ensures s[i].timestamp <= s[j].timestamp
    {
      assert s[j] == s[cut..][j - cut] == sorted[j];
      if i < cut {
        assert s[i] in s[..cut];
        var h :| 0 <= h < cut && sorted[..cut][h] == s[i];
        assert sorted[h] == s[i];
      } else {
        assert s[i] == s[cut..][i - cut] == sorted[i];
      }
    }
  }

  lemma SamePrefixMembers(a: seq<LogEntry>, b: seq<LogEntry>, cut: nat)
    requires cut <= |a| == |b| && multiset(a) == multiset(b) && a[cut..] == b[cut..]
    ensures forall e :: e in b[..cut] ==> e in a[..cut]
  {
    assert a == a[..cut] + a[cut..] && b == b[..cut] + b[cut..];
    var end := multiset(b[cut..]);
    assert multiset(a[..cut]) == multiset(a) - end;
    assert multiset(b[..cut]) == multiset(b) - end;
    assert forall e :: e in b[..cut] ==> e in multiset(a[..cut]);
  }

  /** A record that was added, and how far writing it got. */
  datatype Added = Added(entry: LogEntry, writing: Writing)

  /** The log after these additions to an empty one. */
  function LogOf(capacity: nat, adds: seq<Added>): Log {
    if adds == [] then Log([], None)
    else
      var last := adds[|adds| - 1];
      Appended(LogOf(capacity, adds[..|adds| - 1]), capacity, last.entry, last.writing)
  }

  function Entries(adds: seq<Added>): (r: seq<LogEntry>)
    ensures |r| == |adds|
  {
    seq(|adds|, i requires 0 <= i < |adds| => adds[i].entry)
  }

  lemma {:induction false} RingIsLast(capacity: nat, adds: seq<Added>)
    requires capacity > 0
    ensures LogOf(capacity, adds).entries == Last(Entries(adds), capacity)
  {
    hide Last, Filed;
    if adds == [] {
      assert Last([], capacity) == [] by { LastOfFew([], capacity); }
    } else {
      var front, last := adds[..|adds| - 1], adds[|adds| - 1];
      RingIsLast(capacity, front);
      assert Entries(adds) == Entries(front) + [last.entry];
      LastMore(Entries(front), capacity, last.entry);
    }
  }

  lemma LastOfFew(s: seq<LogEntry>, capacity: nat)
    requires |s| <= capacity
    ensures Last(s, capacity) == s
  {
  }

  /** A pruning write, at record `i` or later, was dated more than 24 hours after record `i`. */
  ghost predicate PrunedAway(adds: seq<Added>, i: nat)
    requires i < |adds|
  {
    exists j :: i <= j < |adds| && adds[j].writing.Written? && !Fresh(adds[i].entry, adds[j].entry.timestamp)
  }

  /** Record `i` is not in the file: it never got there, or it was pruned. */
  ghost predicate Gone(adds: seq<Added>, i: nat)
    requires i < |adds|
  {
    adds[i].writing.NotAppended? || PrunedAway(adds, i)
  }

  /** Those of the first `n` records that are in the file. */
  ghost function Survivors(adds: seq<Added>, n: nat): seq<LogEntry>
    requires n <= |adds|
  {
    if n == 0 then [] else Survivors(adds, n - 1) + Part(!Gone(adds, n - 1), adds[n - 1].entry)
  }

  function Part(kept: bool, e: LogEntry): seq<LogEntry> {
    if kept then [e] else []
  }

  lemma {:induction false} SurvivorsStep(adds: seq<Added>, n: nat)
    requires 0 < n <= |adds|
    ensures Survivors(adds, n) == Survivors(adds, n - 1) + Part(!Gone(adds, n - 1), adds[n - 1].entry)
  {
  }

  lemma {:induction false} KeepFreshPart(s: seq<LogEntry>, kept: bool, e: LogEntry, now: real)
    ensures KeepFresh(s + Part(kept, e), now) == KeepFresh(s, now) + Part(kept && Fresh(e, now), e)
  {
    if kept {
      KeepFreshMore(s, e, now);
    } else {
      NothingMore(s);
      NothingMore(KeepFresh(s, now));
    }
    hide KeepFresh;
  }

  lemma PartCounts(s: seq<LogEntry>, kept: bool, e: LogEntry, x: LogEntry)
    ensures multiset(s + Part(kept, e))[x] == multiset(s)[x] + if kept && e == x then 1 else 0
  {
  }

  lemma NothingMore(s: seq<LogEntry>)
    ensures s + [] == s
  {
  }

  lemma JoinedTwice(a: seq<LogEntry>, b: seq<LogEntry>, c: seq<LogEntry>)
    ensures a + (b + c) == a + b + c
  {
  }

  lemma GoneLater(front: seq<Added>, last: Added, i: nat)
    requires i < |front|
    ensures Gone(front + [last], i)
            <==> Gone(front, i) || (last.writing.Written? && !Fresh(front[i].entry, last.entry.timestamp))
  {
    var adds := front + [last];
    assert adds[i] == front[i] && adds[|front|] == last;
    if PrunedAway(front, i) {
      var j :| i <= j < |front| && front[j].writing.Written? && !Fresh(front[i].entry, front[j].entry.timestamp);
      assert adds[j] == front[j];
    }
  }

  lemma {:induction false} SurvivorsLater(front: seq<Added>, last: Added, n: nat)
    requires n <= |front|
    ensures Survivors(front + [last], n)
            == if last.writing.Written? then KeepFresh(Survivors(front, n), last.entry.timestamp)
               else Survivors(front, n)
  {
    hide Survivors, Gone, Fresh, KeepFresh, Part;
    if n == 0 {
      NoSurvivors(front, last.entry.timestamp);
      NoSurvivors(front + [last], last.entry.timestamp);
    } else {
      SurvivorsLater(front, last, n - 1);
      GoneLater(front, last, n - 1);
      SurvivorsStep(front, n);
      SurvivorsStep(front + [last], n);
      assert (front + [last])[n - 1] == front[n - 1];
      KeepFreshPart(Survivors(front, n - 1), !Gone(front, n - 1), front[n - 1].entry, last.entry.timestamp);
    }
  }

  lemma NoSurvivors(adds: seq<Added>, now: real)
    ensures Survivors(adds, 0) == [] && KeepFresh(Survivors(adds, 0), now) == []
  {
  }

  /** The file holds exactly the records that are not gone, in the order in which they were added. */
  lemma {:induction false} FileIsSurvivors(capacity: nat, adds: seq<Added>)
    ensures FileEntries(LogOf(capacity, adds).file) == Survivors(adds, |adds|)
  {
    hide KeepFresh, Gone, Last, FileEntries, Filed;
    if adds == [] {
      assert FileEntries(None) == [] by { NoFile(); }
    } else {
      var front, last := adds[..|adds| - 1], adds[|adds| - 1];
      assert adds == front + [last];
      FileIsSurvivors(capacity, front);
      SurvivorsLater(front, last, |front|);
      FiledSurvivors(LogOf(capacity, front).file, last);
      LastGone(front, last);
      SurvivorsStep(adds, |adds|);
      NothingMore(Survivors(front, |front|));
    }
  }

  lemma NoFile()
    ensures FileEntries(None) == []
  {
  }

  lemma FiledSurvivors(file: Option<seq<Line>>, a: Added)
    ensures var before, now := FileEntries(file), a.entry.timestamp;
            FileEntries(Filed(file, a.entry, a.writing))
            == match a.writing
               case NotAppended => before
               case NotPruned => before + Part(true, a.entry)
               case Written => KeepFresh(before, now) + Part(Fresh(a.entry, now), a.entry)
  {
    KeepFreshMore(FileEntries(file), a.entry, a.entry.timestamp);
    OneMoreRecord(Lines(file), a.entry);
    RecordsRoundTrip(KeepFresh(FileEntries(file) + [a.entry], a.entry.timestamp));
    hide KeepFresh, Fresh;
  }

  lemma LastGone(front: seq<Added>, last: Added)
    ensures Gone(front + [last], |front|)
            <==> last.writing.NotAppended? || (last.writing.Written? && !Fresh(last.entry, last.entry.timestamp))
  {
    assert (front + [last])[|front|] == last;
  }

  /** No record that is still fresh in the ring is gone from the file. */
  ghost predicate RingSurvives(capacity: nat, adds: seq<Added>, now: real) {
    forall i :: 0 <= i < |adds| && |adds| - capacity <= i && Fresh(adds[i].entry, now) ==> !Gone(adds, i)
  }

  /** With no gone record in the ring, the file ends with what is fresh in the ring. */
  lemma {:induction false} FileEndsWithRing(capacity: nat, adds: seq<Added>, now: real, cut: nat, n: nat)
    requires RingSurvives(capacity, adds, now) && |adds| - capacity <= cut <= n <= |adds|
    ensures KeepFresh(Survivors(adds, n), now)
            == KeepFresh(Survivors(adds, cut), now) + KeepFresh(Entries(adds)[cut..n], now)
    decreases n
  {
    hide RingSurvives, Survivors, Gone, Fresh, KeepFresh, Part, Entries;
    if n == cut {
      NothingKept(Entries(adds)[cut..n], now);
      NothingMore(KeepFresh(Survivors(adds, cut), now));
    } else {
      var e, ring := adds[n - 1].entry, Entries(adds)[cut..n - 1];
      FileEndsWithRing(capacity, adds, now, cut, n - 1);
      EntriesNext(adds, cut, n);
      SurvivorsStep(adds, n);
      if Fresh(e, now) { NotGone(capacity, adds, now, n - 1); }
      KeepFreshPart(Survivors(adds, n - 1), !Gone(adds, n - 1), e, now);
      KeepFreshPart(ring, true, e, now);
      JoinedTwice(KeepFresh(Survivors(adds, cut), now), KeepFresh(ring, now), Part(Fresh(e, now), e));
    }
  }

  lemma NothingKept(s: seq<LogEntry>, now: real)
    requires |s| == 0
    ensures KeepFresh(s, now) == []
  {
  }

  lemma EntriesNext(adds: seq<Added>, cut: nat, n: nat)
    requires cut < n <= |adds|
    ensures Entries(adds)[cut..n] == Entries(adds)[cut..n - 1] + Part(true, adds[n - 1].entry)
  {
  }

  lemma NotGone(capacity: nat, adds: seq<Added>, now: real, i: nat)
    requires RingSurvives(capacity, adds, now) && i < |adds| && |adds| - capacity <= i && Fresh(adds[i].entry, now)
    ensures !Gone(adds, i)
  {
  }

  // ----- a fresh record that is gone cannot be made up for -----

  lemma {:induction false} KeepFreshCounts(s: seq<LogEntry>, now: real, e: LogEntry)
    requires Fresh(e, now)
    ensures multiset(KeepFresh(s, now))[e] == multiset(s)[e]
  {
    hide KeepFresh, Part;
    if s == [] {
      NothingKept(s, now);
    } else {
      var front, last := s[..|s| - 1], s[|s| - 1];
      KeepFreshCounts(front, now, e);
      FrontAndLast(s);
      KeepFreshPart(front, true, last, now);
      PartCounts(front, true, last, e);
      PartCounts(KeepFresh(front, now), Fresh(last, now), last, e);
    }
  }

  lemma FrontAndLast(s: seq<LogEntry>)
    requires s != []
    ensures s == s[..|s| - 1] + Part(true, s[|s| - 1])
  {
  }

  /** Copies of a pruned record that survive were added after the pruning. */
  lemma {:induction false} SurvivingCopies(adds: seq<Added>, j: nat, e: LogEntry, n: nat)
    requires j < n <= |adds| && adds[j].writing.Written? && !Fresh(e, adds[j].entry.timestamp)
    ensures multiset(Survivors(adds, n))[e] <= multiset(Entries(adds)[j + 1..n])[e]
    decreases n
  {
    hide Survivors, Gone, Part, Entries, Fresh;
    if n == j + 1 {
      NoCopies(adds, j, e, n);
    } else {
      SurvivingCopies(adds, j, e, n - 1);
      var last, after := adds[n - 1].entry, Entries(adds)[j + 1..n - 1];
      EntriesNext(adds, j + 1, n);
      SurvivorsStep(adds, n);
      PartCounts(Survivors(adds, n - 1), !Gone(adds, n - 1), last, e);
      PartCounts(after, true, last, e);
    }
  }

  lemma {:induction false} NoCopies(adds: seq<Added>, j: nat, e: LogEntry, n: nat)
    requires j < |adds| && n <= j + 1 && adds[j].writing.Written? && !Fresh(e, adds[j].entry.timestamp)
    ensures multiset(Survivors(adds, n))[e] == 0
    decreases n
  {
    if n == 0 {
    } else {
      NoCopies(adds, j, e, n - 1);
      assert adds[n - 1].entry == e ==> PrunedAway(adds, n - 1);
      SurvivorsStep(adds, n);
      PartCounts(Survivors(adds, n - 1), !Gone(adds, n - 1), adds[n - 1].entry, e);
      hide Survivors, PrunedAway, Part, Fresh;
    }
  }

  /** A record whose append failed has no equal among the others. */
  predicate Traceable(adds: seq<Added>) {
    forall i, j :: 0 <= i < |adds| && 0 <= j < |adds| && i != j && adds[i].writing.NotAppended? ==>
                     adds[i].entry != adds[j].entry
  }

  lemma {:induction false} NotFiled(adds: seq<Added>, i: nat, n: nat)
    requires Traceable(adds) && i < |adds| && adds[i].writing.NotAppended? && n <= |adds|
    ensures multiset(Survivors(adds, n))[adds[i].entry] == 0
  {
    hide PrunedAway;
    if n == 0 {
    } else {
      NotFiled(adds, i, n - 1);
      SurvivorsStep(adds, n);
      PartCounts(Survivors(adds, n - 1), !Gone(adds, n - 1), adds[n - 1].entry, adds[i].entry);
      hide Survivors, Part;
    }
  }

  /** Of a record that is gone, the end of the log from it on has more copies than the file. */
  lemma GoneIsMissed(adds: seq<Added>, cut: nat, i: nat)
    requires Traceable(adds) && cut <= i < |adds| && Gone(adds, i)
    ensures var e := adds[i].entry;
            multiset(Survivors(adds, |adds|))[e] < multiset(Entries(adds)[cut..])[e]
  {
    hide Survivors, Gone, Traceable;
    var e := adds[i].entry;
    if adds[i].writing.NotAppended? {
      NotFiled(adds, i, |adds|);
      CopyAmong(Entries(adds), cut, i, |adds|);
    } else {
      var j := PruningOf(adds, i);
      SurvivingCopies(adds, j, e, |adds|);
      CopyAmong(Entries(adds), cut, i, j + 1);
    }
    assert Entries(adds)[|adds|..] == [];
  }

  /** An element in the first of two parts makes it count. */
  lemma CopyAmong(all: seq<LogEntry>, cut: nat, i: nat, mid: nat)
    requires cut <= i < mid <= |all|
    ensures multiset(all[mid..|all|])[all[i]] < multiset(all[cut..])[all[i]]
  {
    assert all[cut..] == all[cut..mid] + all[mid..|all|];
    assert all[cut..mid][i - cut] == all[i];
    assert all[i] in multiset(all[cut..mid]);
  }

  lemma PruningOf(adds: seq<Added>, i: nat) returns (j: nat)
    requires i < |adds| && Gone(adds, i) && !adds[i].writing.NotAppended?
    ensures i <= j < |adds| && adds[j].writing.Written? && !Fresh(adds[i].entry, adds[j].entry.timestamp)
  {
    j :| i <= j < |adds| && adds[j].writing.Written? && !Fresh(adds[i].entry, adds[j].entry.timestamp);
  }

  /** What a restart gives: the newest of the fresh records in the file, sorted by time. */
  lemma Reloaded(g: Log, capacity: nat, now: real, rewritten: bool)
    ensures Loaded(g, capacity, now, rewritten).entries
            == Last(SortByTime(KeepFresh(FileEntries(g.file), now)), capacity)
  {
    assert KeepFresh([], now) == [] && SortByTime([]) == [];
  }

  /** The fresh records of a ring that has been missed by the file cannot be what a restart gives. */
  lemma MissedIsNotReloaded(capacity: nat, adds: seq<Added>, now: real, kept: seq<LogEntry>, ring: seq<LogEntry>,
                            i: nat)
    requires Traceable(adds) && i < |adds| && |adds| - capacity <= i && Gone(adds, i) && Fresh(adds[i].entry, now)
    requires kept == KeepFresh(Survivors(adds, |adds|), now) && ring == KeepFresh(Last(Entries(adds), capacity), now)
    ensures Last(SortByTime(kept), capacity) != ring
  {
    var e, cut := adds[i].entry, if |adds| <= capacity then 0 else |adds| - capacity;
    GoneIsMissed(adds, cut, i);
    LastIsEnd(Entries(adds), capacity);
    KeepFreshCounts(Survivors(adds, |adds|), now, e);
    KeepFreshCounts(Last(Entries(adds), capacity), now, e);
    SortIsSorted(kept);
    LastIsFewer(SortByTime(kept), capacity, e);
    hide Survivors, Gone, Traceable, KeepFresh, Last, SortByTime, Fresh;
  }

  lemma LastIsEnd(s: seq<LogEntry>, capacity: nat)
    ensures Last(s, capacity) == s[if |s| <= capacity then 0 else |s| - capacity..]
  {
    assert s[0..] == s;
  }

  lemma LastIsFewer(s: seq<LogEntry>, capacity: nat, e: LogEntry)
    ensures multiset(Last(s, capacity))[e] <= multiset(s)[e]
  {
    if |s| > capacity {
      assert s == s[..|s| - capacity] + s[|s| - capacity..];
    }
  }

  /** When the file ends with the fresh part of the ring: the same records come back exactly when they are in order. */
  lemma EndComesBack(capacity: nat, kept: seq<LogEntry>, ring: seq<LogEntry>)
    requires |ring| <= |kept| && |ring| <= capacity && kept[|kept| - |ring|..] == ring
    ensures Last(SortByTime(kept), capacity) == ring
            <==> (|ring| == |kept| || |ring| == capacity) && OrderedFrom(kept, |kept| - |ring|)
  {
    hide SortByTime, OrderedFrom, Last;
    SortedMembers(kept);
    LastIsEnd(SortByTime(kept), capacity);
    EndSorted(kept, |kept| - |ring|);
  }

  lemma EndSorted(s: seq<LogEntry>, cut: nat)
    requires cut <= |s|
    ensures |SortByTime(s)| == |s| && (SortByTime(s)[cut..] == s[cut..] <==> OrderedFrom(s, cut))
  {
    hide SortByTime, OrderedFrom;
    SortedMembers(s);
    if OrderedFrom(s, cut) {
      SortKeepsEnd(s, cut);
      SortedMembers(s[..cut]);
      EndOfJoined(SortByTime(s[..cut]), s[cut..]);
    } else if SortByTime(s)[cut..] == s[cut..] {
      EndKeptBySort(s, cut);
    }
  }

  lemma EndOfJoined(a: seq<LogEntry>, b: seq<LogEntry>)
    ensures (a + b)[|a|..] == b
  {
  }

  lemma RingEndsFile(capacity: nat, adds: seq<Added>, now: real)
    requires RingSurvives(capacity, adds, now)
    ensures var kept := KeepFresh(Survivors(adds, |adds|), now);
            var ring := KeepFresh(Last(Entries(adds), capacity), now);
            |ring| <= |kept| && |ring| <= capacity && kept[|kept| - |ring|..] == ring
  {
    hide RingSurvives, KeepFresh, Survivors, Last, Entries;
    var all, cut := Entries(adds), if |adds| <= capacity then 0 else |adds| - capacity;
    FileEndsWithRing(capacity, adds, now, cut, |adds|);
    LastIsEnd(all, capacity);
    assert all[cut..|adds|] == all[cut..];
    FreshIsFewer(all[cut..], now);
    EndOfJoined(KeepFresh(Survivors(adds, cut), now), KeepFresh(all[cut..], now));
  }

  /**
   What comes back, by the additions alone:
   - no record that is fresh in the ring is gone from the file, that is, its append did not fail
     and no later pruning write was dated more than 24 hours after it,
   - the ring is full of fresh records, or the file has no other fresh records, and
   - every fresh record in the ring is at least as recent as the fresh ones before it in the file.
   */
  ghost predicate ComesBack(capacity: nat, adds: seq<Added>, now: real) {
    var kept, ring := KeepFresh(Survivors(adds, |adds|), now), KeepFresh(Last(Entries(adds), capacity), now);
    RingSurvives(capacity, adds, now) && (|ring| == |kept| || |ring| == capacity)
    && |ring| <= |kept| && OrderedFrom(kept, |kept| - |ring|)
  }

  /**
   Restart with timestamps given by the caller, in any order, over every run of additions to an
   empty log: it gives the ring without its stale entries exactly when that comes back.  Only
   where a failed append left out one of several equal records can another stand in for it.
   */
  lemma RestartKeepsOrderExactly(capacity: nat, adds: seq<Added>, now: real, rewritten: bool)
    requires capacity > 0
    ensures var g := LogOf(capacity, adds);
            var same := Loaded(g, capacity, now, rewritten).entries == KeepFresh(g.entries, now);
            && (ComesBack(capacity, adds, now) ==> same)
            && (Traceable(adds) ==> (same <==> ComesBack(capacity, adds, now)))
  {
    hide LogOf, Survivors, KeepFresh, SortByTime, Last, Traceable, Loaded, ComesBack, FileEntries;
    RingIsLast(capacity, adds);
    FileIsSurvivors(capacity, adds);
    Reloaded(LogOf(capacity, adds), capacity, now, rewritten);
    ReloadedExactly(capacity, adds, now);
  }

  lemma ReloadedExactly(capacity: nat, adds: seq<Added>, now: real)
    ensures var kept := KeepFresh(Survivors(adds, |adds|), now);
            var same := Last(SortByTime(kept), capacity) == KeepFresh(Last(Entries(adds), capacity), now);
            && (ComesBack(capacity, adds, now) ==> same)
            && (Traceable(adds) ==> (same <==> ComesBack(capacity, adds, now)))
  {
    hide Survivors, KeepFresh, SortByTime, Last, OrderedFrom, Traceable, RingSurvives, Entries;
    if RingSurvives(capacity, adds, now) {
      RingEndsFile(capacity, adds, now);
      EndComesBack(capacity, KeepFresh(Survivors(adds, |adds|), now), KeepFresh(Last(Entries(adds), capacity), now));
    } else if Traceable(adds) {
      GoneFromRing(capacity, adds, now);
    }
  }

  lemma GoneFromRing(capacity: nat, adds: seq<Added>, now: real)
    requires Traceable(adds) && !RingSurvives(capacity, adds, now)
    ensures var kept := KeepFresh(Survivors(adds, |adds|), now);
            Last(SortByTime(kept), capacity) != KeepFresh(Last(Entries(adds), capacity), now)
  {
    hide Survivors, KeepFresh, SortByTime, Last, Traceable, Gone;
    var i :| 0 <= i < |adds| && |adds| - capacity <= i && Fresh(adds[i].entry, now) && Gone(adds, i);
    MissedIsNotReloaded(capacity, adds, now, KeepFresh(Survivors(adds, |adds|), now),
                        KeepFresh(Last(Entries(adds), capacity), now), i);
  }

  /** Records dated no later than the restart never make it lose a fresh one whose append succeeded. */
  lemma PastRecordsSurvive(adds: seq<Added>, now: real, i: nat)
    requires i < |adds| && Fresh(adds[i].entry, now) && forall j :: 0 <= j < |adds| ==> adds[j].entry.timestamp <= now
    ensures Gone(adds, i) <==> adds[i].writing.NotAppended?
  {
  }

  /** A log that has just been loaded is one to which its records were added without pruning. */
  lemma {:induction false} LoadedIsBuilt(capacity: nat, valid: seq<LogEntry>)
    requires capacity > 0
    ensures LogOf(capacity, Unpruned(valid)).entries == Last(valid, capacity)
    ensures FileEntries(LogOf(capacity, Unpruned(valid)).file) == valid
  {
    RingIsLast(capacity, Unpruned(valid));
    FileIsSurvivors(capacity, Unpruned(valid));
    assert Entries(Unpruned(valid)) == valid;
    AllSurvive(valid, |valid|);
    assert valid[..|valid|] == valid;
    hide LogOf, Survivors, Last, FileEntries;
  }

  function Unpruned(s: seq<LogEntry>): (r: seq<Added>)
    ensures |r| == |s|
  {
    seq(|s|, i requires 0 <= i < |s| => Added(s[i], NotPruned))
  }

  lemma {:induction false} AllSurvive(s: seq<LogEntry>, n: nat)
    requires n <= |s|
    ensures Survivors(Unpruned(s), n) == s[..n]
  {
    if n == 0 {
    } else {
      AllSurvive(s, n - 1);
      assert !Gone(Unpruned(s), n - 1);
      assert s[..n] == s[..n - 1] + [s[n - 1]];
    }
  }

  // ----- how it can fail -----

  /** Two records written to an empty log, the second dated before the first: the file has both. */
  lemma LateRecordIsFiled(capacity: nat, e: LogEntry, f: LogEntry)
    requires capacity > 0 && 0.0 < f.timestamp < e.timestamp
    ensures var g := Appended(Appended(Log([], None), capacity, e, Written), capacity, f, Written);
            g == Log(Last([e, f], capacity), Some(Records([e, f])))
  {
    TwoFresh(e, f, e.timestamp);
    TwoFresh(e, f, f.timestamp);
    RecordsRoundTrip([e]);
    var g := Appended(Log([], None), capacity, e, Written);
    assert FileEntries(None) + [e] == [e];
    assert FileEntries(g.file) + [f] == [e, f];
    assert Last([e], capacity) + [f] == [e, f];
  }

  lemma TwoFresh(e: LogEntry, f: LogEntry, now: real)
    ensures KeepFresh([e], now) == if Fresh(e, now) then [e] else []
    ensures KeepFresh([e, f], now)
            == (if Fresh(e, now) then [e] else []) + (if Fresh(f, now) then [f] else [])
  {
    KeepFreshMore([], e, now);
    KeepFreshMore([e], f, now);
    assert [] + [e] == [e] && [e] + [f] == [e, f];
  }

  /** A record dated before the one that was recorded first changes places with it at the next restart. */
  lemma LateRecordMoves(e: LogEntry, f: LogEntry, now: real)
    requires 0.0 < f.timestamp < e.timestamp && Fresh(e, now) && Fresh(f, now)
    ensures var g := Appended(Appended(Log([], None), 2, e, Written), 2, f, Written);
            g.entries == [e, f] && Loaded(g, 2, now, true).entries == [f, e]
  {
    LateRecordIsFiled(2, e, f);
    RecordsRoundTrip([e, f]);
    TwoFresh(e, f, now);
    SortOfTwo(e, f);
    hide KeepFresh, SortByTime, RecordsIn, Records;
  }

  lemma {:induction false} SortOfTwo(e: LogEntry, f: LogEntry)
    requires f.timestamp < e.timestamp
    ensures SortByTime([e, f]) == [f, e]
  {
    assert [e, f][..1] == [e] && [e][..0] == [];
    assert SortByTime([e]) == Insert(SortByTime([]), e) == [e];
    assert Insert([e], f) == Insert([], f) + [e];
  }

  /** A record that the ring had dropped is back after a restart when a stale one had taken its place. */
  lemma DroppedRecordReturns(e: LogEntry, f: LogEntry, now: real)
    requires 0.0 < f.timestamp < e.timestamp && Fresh(e, now) && !Fresh(f, now)
    ensures var g := Appended(Appended(Log([], None), 1, e, Written), 1, f, Written);
            g.entries == [f] && Loaded(g, 1, now, true).entries == [e]
  {
    LateRecordIsFiled(1, e, f);
    RecordsRoundTrip([e, f]);
    TwoFresh(e, f, now);
    SortOfSorted([e]);
    assert [e] + [] == [e];
    assert [e, f][1..] == [f];
    hide KeepFresh, SortByTime, RecordsIn, Records;
  }

  lemma FarRecordIsFiled(e: LogEntry, f: LogEntry)
    requires 0.0 < e.timestamp && e.timestamp + PERSISTENCE_SECONDS < f.timestamp
    ensures Appended(Appended(Log([], None), 2, e, Written), 2, f, Written) == Log([e, f], Some(Records([f])))
  {
    TwoFresh(e, f, e.timestamp);
    TwoFresh(e, f, f.timestamp);
    RecordsRoundTrip([e]);
    assert FileEntries(None) + [e] == [e];
    assert [e] + [f] == [e, f] && [] + [f] == [f];
    hide KeepFresh, RecordsIn, Records;
  }

  /**
   A record dated far ahead prunes a fresh one from the file although the ring still has it, so
   the fresh one is gone after a restart.
   */
  lemma FarRecordCosts(e: LogEntry, f: LogEntry, now: real)
    requires 0.0 < e.timestamp && e.timestamp + 86400.0 < f.timestamp
    requires e.timestamp <= now <= e.timestamp + 86400.0
    ensures var g := Appended(Appended(Log([], None), 2, e, Written), 2, f, Written);
            KeepFresh(g.entries, now) == [e, f] && Loaded(g, 2, now, true).entries == [f]
  {
    hide KeepFresh, SortByTime, RecordsIn, Records, Appended;
    FarRecordIsFiled(e, f);
    TwoFresh(e, f, now);
    TwoFresh(f, f, now);
    RecordsRoundTrip([f]);
    SortOfSorted([f]);
  }

  /** When the append of a record fails and an equal one was filed before, that one can stand in for it. */
  lemma EqualRecordStandsIn(a: LogEntry, b: LogEntry, now: real)
    requires 0.0 < a.timestamp < b.timestamp && Fresh(a, now) && Fresh(b, now)
    ensures var g := Appended(Appended(Log([], None), 2, b, Written), 2, a, Written);
            var g' := Appended(g, 2, b, NotAppended);
            KeepFresh(g'.entries, now) == [a, b] == Loaded(g', 2, now, true).entries
  {
    hide KeepFresh, SortByTime, RecordsIn, Records;
    LateRecordIsFiled(2, b, a);
    RecordsRoundTrip([b, a]);
    TwoFresh(b, a, now);
    TwoFresh(a, b, now);
    SortOfTwo(b, a);
    FailedAppend(Some(Records([b, a])), b);
    assert [a] + [b] == [a, b] && [b] + [a] == [b, a];
    assert [b, a] + [b] == [b, a, b] && [b, a, b][1..] == [a, b];
  }
}
