/** The in-memory log behind the /logs page (ui/utils/log_buffer.py): a bounded buffer that pollers
  * read incrementally.  The search text is a test `hit` on an entry. */
module LogBuffer {
  import opened Wrappers

  datatype Entry = Entry(id: nat, levelno: int, logger: string, message: string)

  /** A record as it arrives; `broken` when formatting it raises. */
  datatype Record = Record(levelno: int, logger: string, message: string, broken: bool)

  function EntryOf(r: Record, id: nat): Entry { Entry(id, r.levelno, r.logger, r.message) }

  /** Python's s[-limit:]. */
  function Newest<T>(s: seq<T>, limit: int): (t: seq<T>)
    ensures limit > 0 ==> |t| <= limit
  {
    if limit > 0 then s[if limit < |s| then |s| - limit else 0..]
    else s[if -limit < |s| then -limit else |s|..]
  }

  function Filter(log: seq<Entry>, p: Entry -> bool): (f: seq<Entry>)
    ensures |f| <= |log|
  {
    if log == [] then [] else Keep(log[0], p) + Filter(log[1..], p)
  }

  function Keep(e: Entry, p: Entry -> bool): seq<Entry> { if p(e) then [e] else [] }

  /** Entries with ids 1, 2, 3, ... in order. */
  predicate Consecutive(log: seq<Entry>) {
    forall i :: 0 <= i < |log| ==> log[i].id == i + 1
  }

  function Tail(log: seq<Entry>, maxlen: nat): (t: seq<Entry>)
    ensures |t| == if maxlen < |log| then maxlen else |log|
  {
    log[|log| - (if maxlen < |log| then maxlen else |log|)..]
  }

  function Matches(minLevel: int, hit: Entry -> bool): Entry -> bool {
    (e: Entry) => e.levelno >= minLevel && hit(e)
  }

  function Newer(after: int): Entry -> bool { (e: Entry) => e.id > after }

  class RingBufferHandler {
    const maxlen: nat
    var buffer: seq<Entry>
    var nextId: nat
    /** Every entry ever captured. */
    ghost var log: seq<Entry>

    ghost predicate Valid()
      reads this
    {
      Consecutive(log) && nextId == |log| + 1 && buffer == Tail(log, maxlen)
    }

    constructor (maxlen: nat)
      ensures Valid() && log == [] && this.maxlen == maxlen
    {
      this.maxlen := maxlen;
      buffer, nextId, log := [], 1, [];
    }

    method Emit(record: Record)
      requires Valid()
      modifies this
      ensures Valid()
      ensures log == old(log) + if record.broken then [] else [EntryOf(record, |old(log)| + 1)]
      ensures !record.broken ==> log == old(log) + [Entry(|old(log)| + 1, record.levelno, record.logger, record.message)]
    {
      if record.broken {
        return;
      }
      var entry := EntryOf(record, nextId);
      nextId := nextId + 1;
      log := log + [entry];
      buffer := buffer + [entry];
      if |buffer| > maxlen {
        buffer := buffer[1..];
      }
    }

    method Query(after: int, minLevel: int, hit: Entry -> bool, limit: int)
      returns (entries: seq<Entry>, lastId: nat)
      requires Valid()
      ensures lastId == |log|
      ensures entries == Polled(log, maxlen, after, Matches(minLevel, hit), limit)
    {
      hide Filter, Newest;
      FilterAll([], Newer(after));
      FilterAll([], Matches(minLevel, hit));
      var newer: seq<Entry> := [];
      for i := 0 to |buffer|
        invariant newer == Filter(buffer[..i], Newer(after))
      {
        FilterGrows(buffer, i, Newer(after));
        if buffer[i].id > after { newer := newer + [buffer[i]]; }
      }
      assert buffer[..|buffer|] == buffer;
      lastId := nextId - 1;
      var matched: seq<Entry> := [];
      for i := 0 to |newer|
        invariant matched == Filter(newer[..i], Matches(minLevel, hit))
      {
        FilterGrows(newer, i, Matches(minLevel, hit));
        if newer[i].levelno >= minLevel && hit(newer[i]) { matched := matched + [newer[i]]; }
      }
      assert newer[..|newer|] == newer;
      entries := Newest(matched, limit);
    }
  }

  /** The answer to a poll, as a function of everything ever captured. */
  function Polled(log: seq<Entry>, maxlen: nat, after: int, p: Entry -> bool, limit: int): seq<Entry> {
    Newest(Filter(Filter(Tail(log, maxlen), Newer(after)), p), limit)
  }

  // ----- filters ---------------------------------------------------------------------------------

  lemma {:induction false} FilterConcat(a: seq<Entry>, b: seq<Entry>, p: Entry -> bool)
    ensures Filter(a + b, p) == Filter(a, p) + Filter(b, p)
  {
    if a == [] {
      assert a + b == b;
    } else {
      FilterConcat(a[1..], b, p);
      assert (a + b)[0] == a[0] && (a + b)[1..] == a[1..] + b;
      Reassociate(Keep(a[0], p), Filter(a[1..], p), Filter(b, p));
    }
  }

  lemma {:induction false} FilterMembers(s: seq<Entry>, p: Entry -> bool)
    ensures forall e :: e in Filter(s, p) <==> e in s && p(e)
  {
    if s != [] {
      FilterMembers(s[1..], p);
      assert forall e :: e in s <==> e == s[0] || e in s[1..];
    }
  }

  lemma FilterGrows(s: seq<Entry>, i: nat, p: Entry -> bool)
    requires i < |s|
    ensures Filter(s[..i+1], p) == Filter(s[..i], p) + if p(s[i]) then [s[i]] else []
  {
    hide Filter;
    FilterConcat(s[..i], [s[i]], p);
    FilterOne(s[i], p);
    assert s[..i+1] == s[..i] + [s[i]];
  }

  lemma FilterOne(e: Entry, p: Entry -> bool)
    ensures Filter([e], p) == if p(e) then [e] else []
  {
    assert [e][1..] == [];
  }

  lemma {:induction false} FilterAll(s: seq<Entry>, p: Entry -> bool)
    requires forall e :: e in s ==> p(e)
    ensures Filter(s, p) == s
  {
    if s != [] {
      FilterAll(s[1..], p);
    }
  }

  lemma {:induction false} FilterNone(s: seq<Entry>, p: Entry -> bool)
    ensures Filter(s, p) == [] <==> forall e :: e in s ==> !p(e)
  {
    if s != [] {
      FilterNone(s[1..], p);
      assert s[0] in s && forall e :: e in s <==> e == s[0] || e in s[1..];
    }
  }

  // ----- what one poll returns -------------------------------------------------------------------

  /** The entries with ids above the cursor.  A cursor may be ahead of the log: the page keeps it when the
    * server restarts and ids begin at 1 again. */
  function After(log: seq<Entry>, cursor: nat): seq<Entry> {
    log[if cursor < |log| then cursor else |log|..]
  }

  function UpTo(log: seq<Entry>, cursor: nat): seq<Entry> {
    log[..if cursor < |log| then cursor else |log|]
  }

  /** The entries above the cursor that the buffer has already dropped. */
  function Dropped(log: seq<Entry>, maxlen: nat, cursor: nat): seq<Entry> {
    if |log| <= maxlen || |log| - maxlen <= cursor then [] else log[cursor..|log| - maxlen]
  }

  lemma NewerThanCursor(log: seq<Entry>, maxlen: nat, cursor: nat)
    requires Consecutive(log)
    ensures After(log, cursor) == Dropped(log, maxlen, cursor) + Filter(Tail(log, maxlen), Newer(cursor))
  {
    hide Filter;
    var start := if maxlen < |log| then |log| - maxlen else 0;
    if |log| < cursor {
      FilterNone(log[start..], Newer(cursor));
    } else if start <= cursor {
      OlderAndNewer(log, start, cursor);
    } else {
      FilterAll(Tail(log, maxlen), Newer(cursor));
      assert log[cursor..] == log[cursor..start] + log[start..];
    }
  }

  lemma OlderAndNewer(log: seq<Entry>, start: nat, cursor: nat)
    requires Consecutive(log) && start <= cursor <= |log|
    ensures Filter(log[start..], Newer(cursor)) == log[cursor..]
  {
    hide Filter;
    var a, b := log[start..cursor], log[cursor..];
    assert log[start..] == a + b;
    FilterConcat(a, b, Newer(cursor));
    FilterNone(a, Newer(cursor));
    FilterAll(b, Newer(cursor));
  }

  /** The buffer has dropped no matching entry above the cursor, and at most `limit` of them match
    * (a limit of 0 is, by the slicing rule, no limit at all). */
  ghost predicate Complete(log: seq<Entry>, maxlen: nat, cursor: nat, p: Entry -> bool, limit: nat) {
    && (forall e :: e in Dropped(log, maxlen, cursor) ==> !p(e))
    && (limit == 0 || |Filter(After(log, cursor), p)| <= limit)
  }

  /** Whatever the cursor, a poll gives the last of the matching entries above it, and all of them iff it
    * is complete. */
  lemma PollIsExactIff(log: seq<Entry>, maxlen: nat, cursor: nat, p: Entry -> bool, limit: nat) returns (lost: nat)
    requires Consecutive(log)
    ensures var all := Filter(After(log, cursor), p);
            && lost <= |all| && Polled(log, maxlen, cursor, p, limit) == all[lost..]
            && (lost == 0 <==> Complete(log, maxlen, cursor, p, limit))
  {
    hide Filter, Newest, Dropped, After, Tail;
    var dropped, kept := Dropped(log, maxlen, cursor), Filter(Tail(log, maxlen), Newer(cursor));
    NewerThanCursor(log, maxlen, cursor);
    FilterConcat(dropped, kept, p);
    FilterNone(dropped, p);
    var skipped := NewestIsSuffix(Filter(kept, p), limit);
    lost := |Filter(dropped, p)| + skipped;
  }

  lemma NewestIsSuffix<T>(s: seq<T>, limit: nat) returns (skipped: nat)
    ensures skipped <= |s| && Newest(s, limit) == s[skipped..]
    ensures skipped == 0 <==> limit == 0 || |s| <= limit
  {
    skipped := |s| - |Newest(s, limit)|;
  }

  /** In terms of the entries: a poll without a limit returns those captured above the cursor, still in the
    * buffer, of the level or above and with the text. */
  lemma PolledIs(log: seq<Entry>, maxlen: nat, after: int, minLevel: int, hit: Entry -> bool, e: Entry)
    requires Consecutive(log)
    ensures e in Polled(log, maxlen, after, Matches(minLevel, hit), 0) <==>
            e in log && e.id > after && e.id > |log| - maxlen && e.levelno >= minLevel && hit(e)
  {
    TailHolds(log, maxlen, e);
    FilteredTwice(Tail(log, maxlen), after, minLevel, hit, e);
    hide Filter, Tail, Newest, Newer, Matches, Consecutive, Ascends;
    NewestIs(Filter(Filter(Tail(log, maxlen), Newer(after)), Matches(minLevel, hit)), 0);
  }

  /** They come oldest first, and with a limit only the last ones do. */
  lemma PolledInOrder(log: seq<Entry>, maxlen: nat, after: int, minLevel: int, hit: Entry -> bool, limit: nat)
    requires Consecutive(log)
    ensures var all := Polled(log, maxlen, after, Matches(minLevel, hit), 0);
            && Ascends(all)
            && (limit == 0 || |all| <= limit ==> Polled(log, maxlen, after, Matches(minLevel, hit), limit) == all)
            && (0 < limit < |all| ==> Polled(log, maxlen, after, Matches(minLevel, hit), limit) == all[|all| - limit..])
  {
    hide *;
    var e, p := Entry(0, 0, "", ""), Matches(minLevel, hit);
    TailHolds(log, maxlen, e);
    FilteredTwice(Tail(log, maxlen), after, minLevel, hit, e);
    ghost var matched := Filter(Filter(Tail(log, maxlen), Newer(after)), p);
    LastOfMatched(log, maxlen, after, p, limit);
    LastOfMatched(log, maxlen, after, p, 0);
  }

  lemma LastOfMatched(log: seq<Entry>, maxlen: nat, after: int, p: Entry -> bool, limit: nat)
    ensures var matched := Filter(Filter(Tail(log, maxlen), Newer(after)), p);
            && (limit == 0 || |matched| <= limit ==> Polled(log, maxlen, after, p, limit) == matched)
            && (0 < limit < |matched| ==> Polled(log, maxlen, after, p, limit) == matched[|matched| - limit..])
  {
    hide Filter, Tail, Newer;
    NewestIs(Filter(Filter(Tail(log, maxlen), Newer(after)), p), limit);
  }

  lemma NewestIs(s: seq<Entry>, limit: nat)
    ensures limit == 0 || |s| <= limit ==> Newest(s, limit) == s
    ensures 0 < limit < |s| ==> Newest(s, limit) == s[|s| - limit..]
  {
  }

  lemma FilteredTwice(t: seq<Entry>, after: int, minLevel: int, hit: Entry -> bool, e: Entry)
    requires Ascends(t)
    ensures var matched := Filter(Filter(t, Newer(after)), Matches(minLevel, hit));
            (e in matched <==> e in t && e.id > after && e.levelno >= minLevel && hit(e)) && Ascends(matched)
  {
    hide Filter, Ascends;
    FilterMembers(t, Newer(after));
    FilterMembers(Filter(t, Newer(after)), Matches(minLevel, hit));
    FilterAscends(t, Newer(after));
    FilterAscends(Filter(t, Newer(after)), Matches(minLevel, hit));
  }

  lemma TailHolds(log: seq<Entry>, maxlen: nat, e: Entry)
    requires Consecutive(log)
    ensures e in Tail(log, maxlen) <==> e in log && e.id > |log| - maxlen
    ensures Ascends(Tail(log, maxlen))
  {
    var t := Tail(log, maxlen);
    var start := |log| - |t|;
    assert forall i :: 0 <= i < |t| ==> t[i] == log[start + i] && t[i].id == start + i + 1;
    if e in log {
      var i :| 0 <= i < |log| && log[i] == e;
      if i >= start { assert t[i - start] == e; }
    }
  }

  predicate Ascends(s: seq<Entry>) { forall i, j :: 0 <= i < j < |s| ==> s[i].id < s[j].id }

  lemma {:induction false} FilterAscends(s: seq<Entry>, p: Entry -> bool)
    requires Ascends(s)
    ensures Ascends(Filter(s, p))
  {
    if s != [] {
      FilterAscends(s[1..], p);
      FilterMembers(s[1..], p);
      InFront(s[0], Filter(s[1..], p));
    }
  }

  lemma InFront(e: Entry, rest: seq<Entry>)
    requires Ascends(rest) && forall x :: x in rest ==> e.id < x.id
    ensures Ascends([e] + rest)
  {
    assert forall i :: 0 <= i < |rest| ==> rest[i] in rest;
  }

  // ----- whole polling sessions ------------------------------------------------------------------

  /** Appending records to the log: broken ones leave no trace, the others get the next ids. */
  function Appended(log: seq<Entry>, records: seq<Record>): (l: seq<Entry>)
    ensures log <= l && |l| <= |log| + |records|
    ensures Consecutive(log) ==> Consecutive(l)
    decreases |records|
  {
    if records == [] then log
    else Appended(if records[0].broken then log else log + [EntryOf(records[0], |log| + 1)], records[1..])
  }

  /** A session: rounds of records, each followed by one poll that feeds the last id back. */
  function LogAfter(log: seq<Entry>, rounds: seq<seq<Record>>): (l: seq<Entry>)
    ensures log <= l && (Consecutive(log) ==> Consecutive(l))
    decreases |rounds|
  {
    if rounds == [] then log else LogAfter(Appended(log, rounds[0]), rounds[1..])
  }

  function Collected(log: seq<Entry>, rounds: seq<seq<Record>>, maxlen: nat, p: Entry -> bool, limit: nat): seq<Entry>
    decreases |rounds|
  {
    if rounds == [] then []
    else
      var now := Appended(log, rounds[0]);
      Polled(now, maxlen, |log|, p, limit) + Collected(now, rounds[1..], maxlen, p, limit)
  }

  /** Every poll of the session is complete. */
  ghost predicate KeepsUp(log: seq<Entry>, rounds: seq<seq<Record>>, maxlen: nat, p: Entry -> bool, limit: nat)
    decreases |rounds|
  {
    rounds == [] ||
    var now := Appended(log, rounds[0]);
    Complete(now, maxlen, |log|, p, limit) && KeepsUp(now, rounds[1..], maxlen, p, limit)
  }

  /** a is b with some elements left out. */
  predicate InOrder<T(==)>(a: seq<T>, b: seq<T>)
    decreases |b|
  {
    a == [] || (b != [] && if a[0] == b[0] then InOrder(a[1..], b[1..]) else InOrder(a, b[1..]))
  }

  lemma {:induction false} SuffixInOrder<T>(s: seq<T>, k: nat)
    requires k <= |s|
    ensures InOrder(s[k..], s)
  {
    if s != [] {
      if k == 0 {
        SuffixInOrder(s[1..], 0);
      } else {
        SuffixInOrder(s[1..], k - 1);
        Loosen(s[k..], s);
      }
    }
  }

  /** Matching a longer rest: what is in order in b[1..] is in order in b. */
  lemma {:induction false} Loosen<T>(a: seq<T>, b: seq<T>)
    requires b != [] && InOrder(a, b[1..])
    ensures InOrder(a, b)
    decreases |b|, 0
  {
    if a != [] && a[0] == b[0] {
      Tighten(a, b[1..]);
    }
  }

  lemma {:induction false} Tighten<T>(a: seq<T>, b: seq<T>)
    requires a != [] && InOrder(a, b)
    ensures InOrder(a[1..], b)
    decreases |b|, 1
  {
    if a[0] == b[0] {
      Loosen(a[1..], b);
    } else {
      Tighten(a, b[1..]);
      Loosen(a[1..], b);
    }
  }

  lemma {:induction false} ConcatInOrder<T>(a: seq<T>, b: seq<T>, c: seq<T>, d: seq<T>)
    requires InOrder(a, b) && InOrder(c, d)
    ensures InOrder(a + c, b + d)
    decreases |b|
  {
    if b == [] {
      assert a + c == c && b + d == d;
    } else {
      assert (b + d)[1..] == b[1..] + d;
      if a != [] && a[0] == b[0] {
        ConcatInOrder(a[1..], b[1..], c, d);
        assert (a + c)[1..] == a[1..] + c;
      } else {
        ConcatInOrder(a, b[1..], c, d);
        Loosen(a + c, b + d);
      }
    }
  }

  /** What a poller that feeds last_id back collects is always the filtered stream with some entries left
    * out: nothing invented, repeated or out of order.  Nothing is left out iff every poll is complete. */
  lemma {:induction false} PollerSeesTheStreamIff(log: seq<Entry>, rounds: seq<seq<Record>>,
                                                  maxlen: nat, p: Entry -> bool, limit: nat)
    requires Consecutive(log)
    ensures var got, all := Collected(log, rounds, maxlen, p, limit), Filter(LogAfter(log, rounds)[|log|..], p);
            && InOrder(got, all)
            && |got| <= |all|
            && (|got| == |all| <==> KeepsUp(log, rounds, maxlen, p, limit))
            && (got == all <==> KeepsUp(log, rounds, maxlen, p, limit))
    decreases |rounds|
  {
    hide Polled, Filter, Appended, Consecutive, Complete, InOrder;
    FilterAll([], p);
    if rounds == [] {
      NothingInOrder<Entry>([]);
    } else {
      var now := Appended(log, rounds[0]);
      var lost := PollIsExactIff(now, maxlen, |log|, p, limit);
      PollerSeesTheStreamIff(now, rounds[1..], maxlen, p, limit);
      StreamSplits(log, now, LogAfter(log, rounds), p);
      var all := Filter(now[|log|..], p);
      SuffixInOrder(all, lost);
      ConcatInOrder(all[lost..], all, Collected(now, rounds[1..], maxlen, p, limit),
                    Filter(LogAfter(now, rounds[1..])[|now|..], p));
    }
  }

  lemma NothingInOrder<T>(b: seq<T>)
    ensures InOrder([], b)
  {
  }

  /** It is enough that no more records arrive between two polls than the buffer holds, nor more
    * matching ones than a poll may return. */
  ghost predicate Paced(log: seq<Entry>, rounds: seq<seq<Record>>, maxlen: nat, p: Entry -> bool, limit: nat)
    decreases |rounds|
  {
    rounds == [] ||
    var now := Appended(log, rounds[0]);
    && |rounds[0]| <= maxlen
    && |Filter(now[|log|..], p)| <= limit
    && Paced(now, rounds[1..], maxlen, p, limit)
  }

  lemma {:induction false} PacedPollerSeesTheStream(log: seq<Entry>, rounds: seq<seq<Record>>,
                                                    maxlen: nat, p: Entry -> bool, limit: nat)
    requires Consecutive(log) && Paced(log, rounds, maxlen, p, limit)
    ensures KeepsUp(log, rounds, maxlen, p, limit)
    ensures Collected(log, rounds, maxlen, p, limit) == Filter(LogAfter(log, rounds)[|log|..], p)
    decreases |rounds|
  {
    hide Filter, Polled, Consecutive;
    if rounds != [] {
      PacedPollerSeesTheStream(Appended(log, rounds[0]), rounds[1..], maxlen, p, limit);
    }
    PollerSeesTheStreamIff(log, rounds, maxlen, p, limit);
  }

  lemma StreamSplits(log: seq<Entry>, now: seq<Entry>, all: seq<Entry>, p: Entry -> bool)
    requires log <= now <= all
    ensures Filter(all[|log|..], p) == Filter(now[|log|..], p) + Filter(all[|now|..], p)
  {
    assert all[|log|..] == now[|log|..] + all[|now|..];
    FilterConcat(now[|log|..], all[|now|..], p);
  }

  // ----- a restart of the server under a page that stays open ---------------------------------------

  /** The page goes on with the cursor of the old process; the new one starts with an empty log.  From the
    * first answer on the page has the new process's last id. */
  function CollectedAfterRestart(cursor: nat, rounds: seq<seq<Record>>, maxlen: nat, p: Entry -> bool, limit: nat): seq<Entry>
    requires rounds != []
  {
    var now := Appended([], rounds[0]);
    Polled(now, maxlen, cursor, p, limit) + Collected(now, rounds[1..], maxlen, p, limit)
  }

  /** The page misses the matching entries the new process captured before the first poll with ids up to
    * the old cursor, and, when its polls are complete, no others: it sees the new stream iff there are
    * none.  A poll that finds fewer entries than the cursor counts returns nothing. */
  lemma RestartLosesIff(cursor: nat, rounds: seq<seq<Record>>, maxlen: nat, p: Entry -> bool, limit: nat)
    requires rounds != []
    ensures var now := Appended([], rounds[0]);
            var all, got := Filter(LogAfter([], rounds), p), CollectedAfterRestart(cursor, rounds, maxlen, p, limit);
            var keepsUp := Complete(now, maxlen, cursor, p, limit) && KeepsUp(now, rounds[1..], maxlen, p, limit);
            && (keepsUp ==> all == Filter(UpTo(now, cursor), p) + got)
            && (got == all <==> keepsUp && forall e :: e in UpTo(now, cursor) ==> !p(e))
            && (|now| <= cursor ==> Polled(now, maxlen, cursor, p, limit) == [])
  {
    hide Polled, Filter, Appended, Collected, KeepsUp, LogAfter, Complete;
    var now := Appended([], rounds[0]);
    assert LogAfter([], rounds) == LogAfter(now, rounds[1..]) by { FirstRound([], rounds); }
    var whole := LogAfter(now, rounds[1..]);
    var lost := PollIsExactIff(now, maxlen, cursor, p, limit);
    PollerSeesTheStreamIff(now, rounds[1..], maxlen, p, limit);
    assert whole == UpTo(now, cursor) + (After(now, cursor) + whole[|now|..]);
    FilterConcat(UpTo(now, cursor), After(now, cursor) + whole[|now|..], p);
    FilterConcat(After(now, cursor), whole[|now|..], p);
    FilterNone(UpTo(now, cursor), p);
    FilterAll([], p);
  }

  /** One poll interrupted by a restart: the page has seen id 1 of the old process and never sees the line the
    * new one starts with. */
  lemma RestartLosesTheFirstLine()
    ensures var rounds, all := [[Record(20, "root", "started", false)]], (e: Entry) => true;
            && Filter(LogAfter([], rounds), all) == [Entry(1, 20, "root", "started")]
            && CollectedAfterRestart(1, rounds, 2000, all, 500) == []
  {
    var record := Record(20, "root", "started", false);
    var rounds, all, entry := [[record]], (e: Entry) => true, EntryOf(record, 1);
    assert [record][1..] == [] && Appended([], [record]) == Appended([entry], []) == [entry];
    FirstRound([], rounds);
    assert rounds[1..] == [] && LogAfter([entry], []) == [entry];
    FilterAll([entry], all);
    RestartLosesIff(1, rounds, 2000, all, 500);
  }

  lemma FirstRound(log: seq<Entry>, rounds: seq<seq<Record>>)
    requires rounds != []
    ensures LogAfter(log, rounds) == LogAfter(Appended(log, rounds[0]), rounds[1..])
  {
  }
}
