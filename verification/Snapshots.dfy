/** Daily waste snapshots and their reconstruction from resource ages (src/core/snapshots.py).
  * Days are day numbers; amounts are reals. */
module Snapshots {
  import opened Wrappers

  /** A row of the active_waste view. */
  datatype Waste = Waste(rtype: string, eur: real, age: Option<int>, detected: int)

  datatype Snap = Snap(total: real, count: nat)

  type Table = map<(int, string), Snap>

  const MIN_HISTORY_DAYS := 7
  const BACKFILL_DAYS := 180

  function CreatedOn(w: Waste, today: int): int {
    today - if w.age.Some? then w.age.value else today - w.detected
  }

  /** Active waste of one type that already existed on a day. */
  function At(active: seq<Waste>, rtype: string, day: int, today: int): Snap {
    if active == [] then Snap(0.0, 0)
    else
      var rest, w := At(active[1..], rtype, day, today), active[0];
      if w.rtype == rtype && CreatedOn(w, today) <= day then Snap(w.eur + rest.total, 1 + rest.count) else rest
  }

  /** Today's active waste of one type. */
  function Active(active: seq<Waste>, rtype: string): Snap {
    if active == [] then Snap(0.0, 0)
    else
      var rest, w := Active(active[1..], rtype), active[0];
      if w.rtype == rtype then Snap(w.eur + rest.total, 1 + rest.count) else rest
  }

  function TypesOf(active: seq<Waste>): set<string> { set i | 0 <= i < |active| :: active[i].rtype }

  /** The rows the INSERT of the backfill proposes. */
  function Reconstructed(active: seq<Waste>, today: int, days: int): Table {
    map d, t | today - days <= d < today && t in TypesOf(active) && At(active, t, d, today).count > 0
      :: (d, t) := At(active, t, d, today)
  }

  /** ON CONFLICT DO NOTHING. */
  function Backfilled(rows: Table, active: seq<Waste>, today: int, days: int): Table {
    Reconstructed(active, today, days) + rows
  }

  /** The upsert of today's rows, one per type ever seen. */
  function Photographed(rows: Table, active: seq<Waste>, seen: set<string>, today: int): Table {
    rows + map t | t in seen :: (today, t) := Active(active, t)
  }

  function HistoryDays(rows: Table): nat { |set k | k in rows :: k.0| }

  /** Which of the database steps of a run fail. */
  datatype Faults = Faults(snapshot: bool, history: bool, backfill: bool)

  function AfterSnapshot(rows: Table, active: seq<Waste>, seen: set<string>, today: int, f: Faults): Table {
    if f.snapshot then rows
    else
      var now := Photographed(rows, active, seen, today);
      if f.history || HistoryDays(now) >= MIN_HISTORY_DAYS || f.backfill then now
      else Backfilled(now, active, today, BACKFILL_DAYS)
  }

  class WasteSnapshots {
    var rows: Table

    constructor ()
      ensures rows == map[]
    {
      rows := map[];
    }

    method Backfill(active: seq<Waste>, today: int, days: int, fails: bool) returns (inserted: nat)
      modifies this
      ensures rows == if fails then old(rows) else Backfilled(old(rows), active, today, days)
      ensures inserted == |rows| - |old(rows)|
    {
      if fails {
        return 0;
      }
      hide Reconstructed;
      var proposed := Reconstructed(active, today, days);
      var fresh_ := proposed - rows.Keys;
      inserted := |fresh_|;
      InsertAbsent(rows, proposed);
      rows := rows + fresh_;
    }

    method Snapshot(active: seq<Waste>, seen: set<string>, today: int, f: Faults) returns (count: nat)
      modifies this
      ensures rows == AfterSnapshot(old(rows), active, seen, today, f)
      ensures count == if f.snapshot then 0 else |seen|
    {
      if f.snapshot {
        return 0;
      }
      rows := Photographed(rows, active, seen, today);
      count := |seen|;
      if !f.history && HistoryDays(rows) < MIN_HISTORY_DAYS {
        var _ := Backfill(active, today, BACKFILL_DAYS, f.backfill);
      }
    }
  }

  lemma InsertAbsent(rows: Table, proposed: Table)
    ensures rows + (proposed - rows.Keys) == proposed + rows
    ensures |proposed + rows| == |rows| + |proposed - rows.Keys|
  {
    hide *;
    var added := proposed - rows.Keys;
    assert (proposed + rows).Keys == rows.Keys + added.Keys;
    DisjointCount(rows.Keys, added.Keys);
  }

  lemma DisjointCount<T>(a: set<T>, b: set<T>)
    requires a !! b
    ensures |a + b| == |a| + |b|
  {
  }

  /** A second backfill on the same state inserts nothing. */
  method BackfillTwice(w: WasteSnapshots, active: seq<Waste>, today: int, days: int) returns (first: nat, second: nat)
    modifies w
    ensures w.rows == Backfilled(old(w.rows), active, today, days)
    ensures first == |w.rows| - |old(w.rows)| && second == 0
  {
    first := w.Backfill(active, today, days, false);
    BackfillIsIdempotent(w.rows, active, today, days);
    second := w.Backfill(active, today, days, false);
  }

  // ----- what is summed ------------------------------------------------------------------------------

  /** Active waste of a type is the sum over its rows, and their number. */
  lemma {:induction false} ActiveIsSum(a: seq<Waste>, b: seq<Waste>, w: Waste, rtype: string)
    ensures Active([], rtype) == Snap(0.0, 0)
    ensures Active([w], rtype) == if w.rtype == rtype then Snap(w.eur, 1) else Snap(0.0, 0)
    ensures var x, y := Active(a, rtype), Active(b, rtype);
            Active(a + b, rtype) == Snap(x.total + y.total, x.count + y.count)
    decreases |a|
  {
    assert [w][1..] == [];
    if a == [] {
      assert a + b == b;
    } else {
      ActiveIsSum(a[1..], b, w, rtype);
      assert (a + b)[0] == a[0] && (a + b)[1..] == a[1..] + b;
    }
  }

  /** The reconstruction of a day sums the rows of resources created by then; without an age a resource counts
    * from the day it was detected. */
  lemma {:induction false} AtIsSum(a: seq<Waste>, b: seq<Waste>, w: Waste, rtype: string, day: int, today: int)
    ensures At([], rtype, day, today) == Snap(0.0, 0)
    ensures At([w], rtype, day, today) ==
              if w.rtype == rtype && (match w.age case Some(days) => today - days <= day case None => w.detected <= day)
              then Snap(w.eur, 1) else Snap(0.0, 0)
    ensures var x, y := At(a, rtype, day, today), At(b, rtype, day, today);
            At(a + b, rtype, day, today) == Snap(x.total + y.total, x.count + y.count)
    decreases |a|
  {
    assert [w][1..] == [];
    if a == [] {
      assert a + b == b;
    } else {
      AtIsSum(a[1..], b, w, rtype, day, today);
      assert (a + b)[0] == a[0] && (a + b)[1..] == a[1..] + b;
    }
  }

  // ----- one backfill --------------------------------------------------------------------------------

  /** Repeating a backfill on the same state inserts nothing. */
  lemma BackfillIsIdempotent(rows: Table, active: seq<Waste>, today: int, days: int)
    ensures Backfilled(Backfilled(rows, active, today, days), active, today, days)
         == Backfilled(rows, active, today, days)
  {
  }

  predicate NonNegative(active: seq<Waste>) { forall i :: 0 <= i < |active| ==> 0.0 <= active[i].eur }

  lemma {:induction false} AtIsMonotone(active: seq<Waste>, rtype: string, d: int, e: int, today: int)
    requires NonNegative(active) && d <= e
    ensures var a, b, c := At(active, rtype, d, today), At(active, rtype, e, today), Active(active, rtype);
            0.0 <= a.total <= b.total <= c.total && a.count <= b.count <= c.count
  {
    if active != [] {
      AtIsMonotone(active[1..], rtype, d, e, today);
    }
  }

  /** The rows one backfill inserts for a type grow with the date and stay below today's active total,
    * and a row is inserted for a past day in range iff none was there and something already existed. */
  lemma BackfillIsAFloor(rows: Table, active: seq<Waste>, today: int, days: int, rtype: string, d: int, e: int)
    requires NonNegative(active) && d <= e
    requires (d, rtype) !in rows && (e, rtype) !in rows
    ensures var after := Backfilled(rows, active, today, days);
            && ((d, rtype) in after <==> today - days <= d < today && At(active, rtype, d, today).count > 0)
            && ((d, rtype) in after && (e, rtype) in after ==>
                  after[(d, rtype)].total <= after[(e, rtype)].total <= Active(active, rtype).total)
  {
    AtIsMonotone(active, rtype, d, e, today);
    CountedTypeIsListed(active, rtype, d, today);
  }

  lemma {:induction false} CountedTypeIsListed(active: seq<Waste>, rtype: string, day: int, today: int)
    ensures At(active, rtype, day, today).count > 0 ==> rtype in TypesOf(active)
  {
    if active != [] {
      CountedTypeIsListed(active[1..], rtype, day, today);
      if rtype in TypesOf(active[1..]) {
        var i :| 0 <= i < |active[1..]| && active[1..][i].rtype == rtype;
        assert active[i+1].rtype == rtype;
      }
      assert active[0].rtype in TypesOf(active);
    }
  }

  // ----- whole histories -----------------------------------------------------------------------------

  /** `snapped` records what the successful snapshots wrote, for the statements below. */
  datatype State = State(today: int, seen: set<string>, rows: Table, snapped: Table)

  /** Days pass, and detector runs take snapshots of whatever is then active. */
  datatype Event =
    | DaysPass(n: nat)
    | DetectorRun(active: seq<Waste>, newTypes: set<string>, faults: Faults)

  function Step(s: State, e: Event): State {
    match e
    case DaysPass(n) => s.(today := s.today + n)
    case DetectorRun(active, newTypes, f) =>
      var seen := s.seen + newTypes;
      s.(seen := seen,
         rows := AfterSnapshot(s.rows, active, seen, s.today, f),
         snapped := if f.snapshot then s.snapped else Photographed(s.snapped, active, seen, s.today))
  }

  function Run(s: State, es: seq<Event>): State
    decreases |es|
  {
    if es == [] then s else Run(Step(s, es[0]), es[1..])
  }

  predicate RealRowsStand(s: State) {
    forall k :: k in s.snapped ==> k in s.rows && s.rows[k] == s.snapped[k]
  }

  predicate NothingAhead(s: State) {
    forall k :: k in s.rows ==> k.0 <= s.today
  }

  lemma StepFacts(s: State, e: Event)
    requires RealRowsStand(s) && NothingAhead(s)
    ensures RealRowsStand(Step(s, e)) && NothingAhead(Step(s, e))
    ensures forall k :: k in s.rows && k.0 < s.today ==> k in Step(s, e).rows && Step(s, e).rows[k] == s.rows[k]
  {
  }

  /** In every history a row for a past day never changes again, no row is ahead of its day, and a
    * backfill never replaces a real snapshot. */
  lemma {:induction false} PastRowsAreFrozen(s: State, es: seq<Event>)
    requires RealRowsStand(s) && NothingAhead(s)
    ensures forall k :: k in s.rows && k.0 < s.today ==> k in Run(s, es).rows && Run(s, es).rows[k] == s.rows[k]
    ensures RealRowsStand(Run(s, es)) && NothingAhead(Run(s, es)) && s.today <= Run(s, es).today
    ensures var t := Run(s, es);
            && (forall k :: k in t.snapped ==> k in t.rows && t.rows[k] == t.snapped[k])
            && forall k :: k in t.rows ==> k.0 <= t.today
    decreases |es|
  {
    if es != [] {
      StepFacts(s, es[0]);
      PastRowsAreFrozen(Step(s, es[0]), es[1..]);
    }
  }

  /** After a successful snapshot today's row of every type ever seen is its current active waste,
    * zero included, whatever happens to the history check and the backfill. */
  lemma TodayIsCurrent(s: State, e: Event, rtype: string)
    requires e.DetectorRun? && !e.faults.snapshot && rtype in s.seen + e.newTypes
    ensures var after := Step(s, e);
            && (after.today, rtype) in after.rows
            && after.rows[(after.today, rtype)] == Active(e.active, rtype)
    ensures rtype !in TypesOf(e.active) ==> Step(s, e).rows[(s.today, rtype)] == Snap(0.0, 0)
  {
    if rtype !in TypesOf(e.active) {
      NothingActive(e.active, rtype);
    }
  }

  /** A run that succeeds also reconstructs the past while fewer than seven days are on record, today's
    * included: each of the 180 days before today on which something already existed has a row then.  Later runs
    * write today's rows only. */
  lemma ShortHistoryIsBackfilled(s: State, e: Event, day: int, rtype: string)
    requires e.DetectorRun? && !e.faults.snapshot && !e.faults.history && NothingAhead(s)
    ensures var after := Step(s, e).rows;
            var days := (set k | k in s.rows :: k.0) + if s.seen + e.newTypes == {} then {} else {s.today};
            && (|days| < 7 && !e.faults.backfill && s.today - 180 <= day < s.today ==>
                  ((day, rtype) in after <==> (day, rtype) in s.rows || At(e.active, rtype, day, s.today).count > 0)
                  && ((day, rtype) in after && (day, rtype) !in s.rows ==> after[(day, rtype)] == At(e.active, rtype, day, s.today)))
            && (day < s.today && (7 <= |days| || e.faults.backfill || day < s.today - 180) ==>
                  ((day, rtype) in after <==> (day, rtype) in s.rows)
                  && ((day, rtype) in s.rows ==> after[(day, rtype)] == s.rows[(day, rtype)]))
  {
    var seen := s.seen + e.newTypes;
    var now := Photographed(s.rows, e.active, seen, s.today);
    DaysOnRecord(s.rows, e.active, seen, s.today);
    CountedTypeIsListed(e.active, rtype, day, s.today);
    hide At, HistoryDays, TypesOf;
    BackfillAt(now, e.active, s.today, 180, day, rtype);
  }

  lemma BackfillAt(rows: Table, active: seq<Waste>, today: int, days: int, day: int, rtype: string)
    requires At(active, rtype, day, today).count > 0 ==> rtype in TypesOf(active)
    ensures var after := Backfilled(rows, active, today, days);
            && ((day, rtype) in after <==>
                  (day, rtype) in rows || (today - days <= day < today && At(active, rtype, day, today).count > 0))
            && ((day, rtype) in rows ==> after[(day, rtype)] == rows[(day, rtype)])
            && ((day, rtype) in after && (day, rtype) !in rows ==> after[(day, rtype)] == At(active, rtype, day, today))
  {
    hide At, TypesOf;
  }

  lemma DaysOnRecord(rows: Table, active: seq<Waste>, seen: set<string>, today: int)
    ensures HistoryDays(Photographed(rows, active, seen, today))
         == |(set k | k in rows :: k.0) + if seen == {} then {} else {today}|
  {
    var now := Photographed(rows, active, seen, today);
    var days := (set k | k in rows :: k.0) + if seen == {} then {} else {today};
    forall d ensures d in (set k | k in now :: k.0) <==> d in days {
      if t :| t in seen && d == today { assert (today, t) in now; }
      if k :| k in rows && k.0 == d { assert k in now; }
    }
    assert (set k | k in now :: k.0) == days;
  }

  lemma {:induction false} NothingActive(active: seq<Waste>, rtype: string)
    requires rtype !in TypesOf(active)
    ensures Active(active, rtype) == Snap(0.0, 0)
  {
    if active != [] {
      assert active[0].rtype in TypesOf(active);
      forall i | 0 <= i < |active[1..]| ensures active[1..][i].rtype in TypesOf(active) {
        assert active[1..][i] == active[i+1];
      }
      NothingActive(active[1..], rtype);
    }
  }

  /** Once the day is over, the row of a type stays what the last successful snapshot of that day saw. */
  lemma LastSnapshotOfTheDayStands(s: State, e: Event, n: nat, es: seq<Event>, rtype: string)
    requires RealRowsStand(s) && NothingAhead(s)
    requires e.DetectorRun? && !e.faults.snapshot && rtype in s.seen + e.newTypes && n > 0
    ensures var after := Run(Step(Step(s, e), DaysPass(n)), es);
            (s.today, rtype) in after.rows && after.rows[(s.today, rtype)] == Active(e.active, rtype)
  {
    StepFacts(s, e);
    TodayIsCurrent(s, e, rtype);
    PastRowsAreFrozen(Step(Step(s, e), DaysPass(n)), es);
  }
}
