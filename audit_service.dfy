/**
 * The audit-log query: filter by action and actor, sort newest first, then
 * apply the optional limit. The shared log is a value here, so it cannot be
 * reordered or changed by a query.
 */
module AuditService {
  import opened Wrappers
  import opened Seqs
  import opened Domain

  datatype AuditLogFilters = AuditLogFilters(action: Option<AuditAction>, actorId: Option<string>, limit: Option<int>)

  /** An entry passes the action and actor filters that are set. */
  predicate Matches(e: AuditLogEntry, filters: AuditLogFilters) {
    && (filters.action.None? || e.action == filters.action.value)
    && (!Given(filters.actorId) || e.actorId == filters.actorId.value)
  }

  /** Timestamps never increase along the sequence. */
  predicate NewestFirst(s: seq<AuditLogEntry>) {
    forall i, j :: 0 <= i < j < |s| ==> s[i].timestamp >= s[j].timestamp
  }

  /** Inserts `e` before the first strictly older entry, after every entry at least as new. */
  function Insert(e: AuditLogEntry, sorted: seq<AuditLogEntry>): seq<AuditLogEntry> {
    if sorted == [] || e.timestamp >= sorted[0].timestamp then [e] + sorted
    else [sorted[0]] + Insert(e, sorted[1..])
  }

  /** Insertion adds exactly `e`. */
  lemma {:induction false} InsertMultiset(e: AuditLogEntry, sorted: seq<AuditLogEntry>)
    ensures multiset(Insert(e, sorted)) == multiset(sorted) + multiset{e}
  {
    if !(sorted == [] || e.timestamp >= sorted[0].timestamp) {
      InsertMultiset(e, sorted[1..]);
      assert sorted == [sorted[0]] + sorted[1..];
    }
  }

  /** Inserting an entry no newer than `ts` into entries no newer than `ts` keeps them so. */
  lemma {:induction false} InsertBounded(e: AuditLogEntry, sorted: seq<AuditLogEntry>, ts: int)
    requires e.timestamp <= ts
    requires forall i :: 0 <= i < |sorted| ==> sorted[i].timestamp <= ts
    ensures forall i :: 0 <= i < |Insert(e, sorted)| ==> Insert(e, sorted)[i].timestamp <= ts
  {
    if !(sorted == [] || e.timestamp >= sorted[0].timestamp) {
      InsertBounded(e, sorted[1..], ts);
    }
  }

  /** Insertion into a newest-first list keeps it newest first. */
  lemma {:induction false} InsertSorted(e: AuditLogEntry, sorted: seq<AuditLogEntry>)
    requires NewestFirst(sorted)
    ensures NewestFirst(Insert(e, sorted))
  {
    if !(sorted == [] || e.timestamp >= sorted[0].timestamp) {
      var head, rest := sorted[0], Insert(e, sorted[1..]);
      InsertSorted(e, sorted[1..]);
      InsertBounded(e, sorted[1..], head.timestamp);
      var r := [head] + rest;
      forall i, j | 0 <= i < j < |r| ensures r[i].timestamp >= r[j].timestamp {
        if i > 0 {
          assert r[i] == rest[i - 1] && r[j] == rest[j - 1];
        } else {
          assert r[j] in rest;
        }
      }
    }
  }

  /**
   * `result.sort((a, b) => b.timestamp - a.timestamp)`: a stable sort, newest first
   * (entries with equal timestamps keep their order).
   */
  function SortNewestFirst(s: seq<AuditLogEntry>): seq<AuditLogEntry> {
    if s == [] then [] else Insert(s[0], SortNewestFirst(s[1..]))
  }

  /** The entries carrying timestamp `t`, in list order. */
  function AtTime(s: seq<AuditLogEntry>, t: int): (r: seq<AuditLogEntry>)
    ensures forall e :: e in r <==> e in s && e.timestamp == t
  {
    Filter(s, (e: AuditLogEntry) => e.timestamp == t)
  }

  /** Insertion puts `e` in front of every entry with the same timestamp. */
  lemma {:induction false} InsertBeforeEqual(e: AuditLogEntry, sorted: seq<AuditLogEntry>, t: int)
    ensures AtTime(Insert(e, sorted), t) == (if e.timestamp == t then [e] else []) + AtTime(sorted, t)
    decreases |sorted|
  {
    if sorted == [] || e.timestamp >= sorted[0].timestamp {
      assert ([e] + sorted)[1..] == sorted;
    } else {
      var ins := Insert(e, sorted[1..]);
      InsertBeforeEqual(e, sorted[1..], t);
      assert ([sorted[0]] + ins)[1..] == ins;
      if e.timestamp == t {
        assert sorted[0].timestamp != t;
      }
    }
  }

  /**
   * The sort is stable: the entries sharing a timestamp come out in the order
   * they had in the input.
   */
  lemma {:induction false} SortIsStable(s: seq<AuditLogEntry>, t: int)
    ensures AtTime(SortNewestFirst(s), t) == AtTime(s, t)
  {
    if s != [] {
      SortIsStable(s[1..], t);
      InsertBeforeEqual(s[0], SortNewestFirst(s[1..]), t);
    }
  }

  /** The sort yields a newest-first permutation of its input. */
  lemma {:induction false} SortNewestFirstCorrect(s: seq<AuditLogEntry>)
    ensures NewestFirst(SortNewestFirst(s))
    ensures multiset(SortNewestFirst(s)) == multiset(s)
  {
    if s != [] {
      SortNewestFirstCorrect(s[1..]);
      InsertSorted(s[0], SortNewestFirst(s[1..]));
      InsertMultiset(s[0], SortNewestFirst(s[1..]));
      assert s == [s[0]] + s[1..];
    }
  }

  /**
   * `if (limit) result = result.slice(0, limit)`: absent or zero leaves the list alone
   * (zero is falsy); a negative limit is truthy and `slice` then counts from the end.
   */
  function ApplyLimit(s: seq<AuditLogEntry>, limit: Option<int>): (r: seq<AuditLogEntry>)
    ensures limit.None? || limit.value == 0 ==> r == s
    ensures limit.Some? && limit.value > 0 ==> r == s[..Min(limit.value, |s|)]
    ensures limit.Some? && limit.value < 0 ==> r == s[..Max(0, |s| + limit.value)]
  {
    if limit.None? || limit.value == 0 then s
    else if limit.value > 0 then s[..Min(limit.value, |s|)]
    else s[..Max(0, |s| + limit.value)]
  }

  /** `if (filters?.action) result = result.filter(e => e.action === filters.action)`. */
  function ByAction(log: seq<AuditLogEntry>, action: Option<AuditAction>): seq<AuditLogEntry> {
    if action.Some? then Filter(log, (e: AuditLogEntry) => e.action == action.value) else log
  }

  /** `if (filters?.actorId) result = result.filter(e => e.actorId === filters.actorId)`. */
  function ByActor(s: seq<AuditLogEntry>, actorId: Option<string>): seq<AuditLogEntry> {
    if Given(actorId) then Filter(s, (e: AuditLogEntry) => e.actorId == actorId.value) else s
  }

  /** The two chained filters keep exactly the matching entries, in log order. */
  function Matching(log: seq<AuditLogEntry>, filters: AuditLogFilters): (r: seq<AuditLogEntry>)
    ensures r == Filter(log, (e: AuditLogEntry) => Matches(e, filters))
  {
    var r := ByActor(ByAction(log, filters.action), filters.actorId);
    MatchingIsOneFilter(log, filters);
    r
  }

  lemma MatchingIsOneFilter(log: seq<AuditLogEntry>, filters: AuditLogFilters)
    ensures ByActor(ByAction(log, filters.action), filters.actorId)
         == Filter(log, (e: AuditLogEntry) => Matches(e, filters))
  {
    var p := (e: AuditLogEntry) => Matches(e, filters);
    if filters.action.Some? && Given(filters.actorId) {
      BothFilters(log, filters);
    } else if filters.action.Some? {
      FilterCongruent(log, (e: AuditLogEntry) => e.action == filters.action.value, p);
    } else if Given(filters.actorId) {
      FilterCongruent(log, (e: AuditLogEntry) => e.actorId == filters.actorId.value, p);
    } else {
      FilterKeepsAll(log, p);
    }
  }

  lemma BothFilters(log: seq<AuditLogEntry>, filters: AuditLogFilters)
    requires filters.action.Some? && Given(filters.actorId)
    ensures ByActor(ByAction(log, filters.action), filters.actorId)
         == Filter(log, (e: AuditLogEntry) => Matches(e, filters))
  {
    var byAction := (e: AuditLogEntry) => e.action == filters.action.value;
    var byActor := (e: AuditLogEntry) => e.actorId == filters.actorId.value;
    var first := Filter(log, byAction);
    assert ByAction(log, filters.action) == first;
    assert ByActor(first, filters.actorId) == Filter(first, byActor);
    FilterFilter(log, byAction, byActor, (e: AuditLogEntry) => Matches(e, filters));
  }

  /** `listAuditLogs(filters)`. */
  function ListAuditLogs(log: seq<AuditLogEntry>, filters: AuditLogFilters): (r: seq<AuditLogEntry>)
    ensures forall e :: e in r ==> e in log && Matches(e, filters)
    ensures NewestFirst(r)
    ensures filters.limit.None? || filters.limit.value == 0 ==>
      multiset(r) == multiset(Filter(log, (e: AuditLogEntry) => Matches(e, filters)))
    ensures filters.limit.Some? && filters.limit.value > 0 ==>
      |r| == Min(filters.limit.value, |Filter(log, (e: AuditLogEntry) => Matches(e, filters))|)
  {
    var matching := Matching(log, filters);
    var sorted := SortNewestFirst(matching);
    SortedFacts(matching);
    var r := ApplyLimit(sorted, filters.limit);
    PrefixFacts(sorted, |r|);
    r
  }

  /** The sorted list has the same length and members as its input. */
  lemma SortedFacts(s: seq<AuditLogEntry>)
    ensures NewestFirst(SortNewestFirst(s))
    ensures multiset(SortNewestFirst(s)) == multiset(s)
    ensures |SortNewestFirst(s)| == |s|
    ensures forall e :: e in SortNewestFirst(s) ==> e in s
  {
    var sorted := SortNewestFirst(s);
    SortNewestFirstCorrect(s);
    assert |multiset(sorted)| == |multiset(s)|;
    forall e | e in sorted ensures e in s {
      assert e in multiset(sorted);
    }
  }

  /** A prefix of a newest-first list is newest first and draws from it. */
  lemma PrefixFacts(s: seq<AuditLogEntry>, k: nat)
    requires NewestFirst(s) && k <= |s|
    ensures NewestFirst(s[..k])
    ensures forall e :: e in s[..k] ==> e in s
  {
  }

  /** With a positive limit the result is the newest part of the unlimited result. */
  lemma LimitKeepsNewest(log: seq<AuditLogEntry>, filters: AuditLogFilters)
    requires filters.limit.Some? && filters.limit.value > 0
    ensures var r := ListAuditLogs(log, filters);
      var all := ListAuditLogs(log, filters.(limit := None));
      && |r| <= filters.limit.value
      && r == all[..|r|]
      && forall i, j :: 0 <= i < |r| <= j < |all| ==> all[i].timestamp >= all[j].timestamp
  {
  }
}
