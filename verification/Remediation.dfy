/** Guarded remediation: the safeguards (src/core/safeguards.py), stopping an EC2 instance and the batch
  * loops around it (src/remediators/ec2_remediator.py, ui/utils/remediator.py), and the flow shared by
  * the other remediators (src/remediators/resource_remediator.py).  Of the failures of the database only the
  * one that makes a stop go uncounted is here. */
module Remediation {
  import opened Wrappers

  // ----- safeguards ------------------------------------------------------------------------------

  datatype Schedule = Schedule(enabled: bool, days: set<string>, hours: set<int>)

  /** The safeguard configuration.  The per-run limit need not be a whole number. */
  datatype Config = Config(
    autoEnabled: bool, disabledActions: set<string>,
    whitelistIds: set<string>, whitelistTags: seq<(string, string)>,
    minAgeDays: real, minConfidence: real, minIdleDays: real, maxPerRun: real, schedule: Schedule)

  /** The bounds configuration loading enforces on the limit. */
  predicate ValidConfig(c: Config) { 1.0 <= c.maxPerRun <= 10000.0 }

  /** What is known about an instance when its stop is attempted, how the AWS call would end, and whether the
    * transaction that records the success would fail to commit. */
  datatype Target = Target(
    recId: nat, id: string, found: bool, known: bool, tags: map<string, string>,
    ageDays: int, confidence: real, idleDays: int, weekday: string, hour: int, awsFails: bool, unrecorded: bool)

  predicate Whitelisted(c: Config, id: string, tags: map<string, string>) {
    id in c.whitelistIds ||
    exists i :: 0 <= i < |c.whitelistTags| &&
                c.whitelistTags[i].0 in tags && tags[c.whitelistTags[i].0] == c.whitelistTags[i].1
  }

  predicate OnSchedule(c: Config, weekday: string, hour: int) {
    !c.schedule.enabled ||
    ((c.schedule.days == {} || weekday in c.schedule.days) && (c.schedule.hours == {} || hour in c.schedule.hours))
  }

  datatype Check = GlobalEnabled | Whitelist | InstanceAge | Confidence | IdleDuration | OnTime | MaxInstances

  const CHECKS := [GlobalEnabled, Whitelist, InstanceAge, Confidence, IdleDuration, OnTime, MaxInstances]

  predicate Passes(c: Config, t: Target, count: nat, check: Check) {
    match check
    case GlobalEnabled => c.autoEnabled
    case Whitelist => !Whitelisted(c, t.id, t.tags)
    case InstanceAge => t.ageDays as real >= c.minAgeDays
    case Confidence => t.confidence >= c.minConfidence
    case IdleDuration => t.idleDays as real >= c.minIdleDays
    case OnTime => OnSchedule(c, t.weekday, t.hour)
    case MaxInstances => count as real < c.maxPerRun
  }

  predicate PassesAll(c: Config, t: Target, count: nat) {
    forall check :: check in CHECKS ==> Passes(c, t, count, check)
  }

  /** The checks run in order and stop at the first failure: safe means all seven passed; what is listed as
    * passed (the global switch never is) ends right before the first failing check. */
  method ValidateAll(c: Config, t: Target, count: nat) returns (passed: seq<Check>, safe: bool)
    ensures safe <==> PassesAll(c, t, count)
    ensures passed <= [Whitelist, InstanceAge, Confidence, IdleDuration, OnTime, MaxInstances]
    ensures passed <= CHECKS[1..] && forall check :: check in passed ==> Passes(c, t, count, check)
    ensures safe ==> passed == CHECKS[1..]
    ensures !safe && !Passes(c, t, count, GlobalEnabled) ==> passed == []
    ensures !safe && Passes(c, t, count, GlobalEnabled) ==>
              |passed| + 1 < |CHECKS| && !Passes(c, t, count, CHECKS[|passed|+1])
  {
    hide Passes;
    passed, safe := [], false;
    if !Passes(c, t, count, GlobalEnabled) { return; }
    if !Passes(c, t, count, Whitelist) { return; }
    passed := passed + [Whitelist];
    if !Passes(c, t, count, InstanceAge) { return; }
    passed := passed + [InstanceAge];
    if !Passes(c, t, count, Confidence) { return; }
    passed := passed + [Confidence];
    if !Passes(c, t, count, IdleDuration) { return; }
    passed := passed + [IdleDuration];
    if !Passes(c, t, count, OnTime) { return; }
    passed := passed + [OnTime];
    if !Passes(c, t, count, MaxInstances) { return; }
    passed := passed + [MaxInstances];
    safe := true;
  }

  /** The seven safeguards in terms of the configuration and of what is known about the instance. */
  lemma SafeguardsAre(c: Config, t: Target, count: nat)
    ensures PassesAll(c, t, count) <==>
            && c.autoEnabled
            && t.id !in c.whitelistIds
            && (forall tag :: tag in c.whitelistTags ==> !(tag.0 in t.tags && t.tags[tag.0] == tag.1))
            && t.ageDays as real >= c.minAgeDays && t.confidence >= c.minConfidence && t.idleDays as real >= c.minIdleDays
            && (c.schedule.enabled ==>
                  (c.schedule.days == {} || t.weekday in c.schedule.days)
                  && (c.schedule.hours == {} || t.hour in c.schedule.hours))
            && count as real < c.maxPerRun
  {
    NotWhitelisted(c, t.id, t.tags);
    hide Whitelisted;
    assert CHECKS[0] == GlobalEnabled && CHECKS[1] == Whitelist && CHECKS[2] == InstanceAge && CHECKS[3] == Confidence;
    assert CHECKS[4] == IdleDuration && CHECKS[5] == OnTime && CHECKS[6] == MaxInstances;
    forall i | 0 <= i < 7 ensures CHECKS[i] in CHECKS {}
    assert PassesAll(c, t, count) <==> forall i :: 0 <= i < 7 ==> Passes(c, t, count, CHECKS[i]);
  }

  lemma NotWhitelisted(c: Config, id: string, tags: map<string, string>)
    ensures !Whitelisted(c, id, tags) <==>
            id !in c.whitelistIds && forall tag :: tag in c.whitelistTags ==> !(tag.0 in tags && tags[tag.0] == tag.1)
  {
  }

  // ----- stopping one instance -------------------------------------------------------------------

  datatype LogStatus = Pending | Succeeded | Failed | Blocked

  datatype LogRow = LogRow(recId: nat, status: LogStatus)

  /** The stop is attempted: the instance and its recommendation exist and every safeguard passes. */
  predicate Attempted(c: Config, t: Target, count: nat) { t.found && t.known && PassesAll(c, t, count) }

  /** AWS stops the instance, or would have under dry-run. */
  predicate Acts(c: Config, dryRun: bool, t: Target, count: nat) {
    Attempted(c, t, count) && (dryRun || !t.awsFails)
  }

  /** The stop is reported as a success, and counted. */
  predicate Stops(c: Config, dryRun: bool, t: Target, count: nat) {
    Acts(c, dryRun, t, count) && !t.unrecorded
  }

  function LogOf(c: Config, dryRun: bool, t: Target, count: nat): seq<LogRow> {
    if Attempted(c, t, count) then [LogRow(t.recId, if Stops(c, dryRun, t, count) then Succeeded else Failed)] else []
  }

  // A batch: each target is tried with the number of successes so far.

  function Count(c: Config, dryRun: bool, targets: seq<Target>): nat {
    if targets == [] then 0
    else
      var before := Count(c, dryRun, targets[..|targets|-1]);
      if Stops(c, dryRun, targets[|targets|-1], before) then before + 1 else before
  }

  function Batch(c: Config, dryRun: bool, targets: seq<Target>): (results: seq<bool>)
    ensures |results| == |targets|
  {
    if targets == [] then []
    else
      var before := targets[..|targets|-1];
      Batch(c, dryRun, before) + [Stops(c, dryRun, targets[|targets|-1], Count(c, dryRun, before))]
  }

  function BatchLog(c: Config, dryRun: bool, targets: seq<Target>): seq<LogRow> {
    if targets == [] then []
    else
      var before := targets[..|targets|-1];
      BatchLog(c, dryRun, before) + LogOf(c, dryRun, targets[|targets|-1], Count(c, dryRun, before))
  }

  /** The targets reported as stopped, in order. */
  function Successes(c: Config, dryRun: bool, targets: seq<Target>): seq<Target> {
    if targets == [] then []
    else
      var before, last := targets[..|targets|-1], targets[|targets|-1];
      Successes(c, dryRun, before) + if Stops(c, dryRun, last, Count(c, dryRun, before)) then [last] else []
  }

  /** The targets AWS acted on, in order, and those of them that were not counted. */
  function Stopped(c: Config, dryRun: bool, targets: seq<Target>): seq<Target> {
    if targets == [] then []
    else
      var before, last := targets[..|targets|-1], targets[|targets|-1];
      Stopped(c, dryRun, before) + if Acts(c, dryRun, last, Count(c, dryRun, before)) then [last] else []
  }

  function Lost(stopped: seq<Target>): nat {
    if stopped == [] then 0
    else Lost(stopped[..|stopped|-1]) + if stopped[|stopped|-1].unrecorded then 1 else 0
  }

  function Ids(targets: seq<Target>): (ids: seq<string>)
    ensures |ids| == |targets| && forall i :: 0 <= i < |ids| ==> ids[i] == targets[i].id
  {
    seq(|targets|, i requires 0 <= i < |targets| => targets[i].id)
  }

  function RecIds(targets: seq<Target>): (ids: seq<nat>)
    ensures |ids| == |targets| && forall i :: 0 <= i < |ids| ==> ids[i] == targets[i].recId
  {
    seq(|targets|, i requires 0 <= i < |targets| => targets[i].recId)
  }

  lemma RecIdsGrow(s: seq<Target>, t: Target, applied: seq<nat>)
    ensures applied + RecIds(s + [t]) == (applied + RecIds(s)) + [t.recId]
  {
    assert RecIds(s + [t]) == RecIds(s) + [t.recId];
  }

  lemma IdsGrow(s: seq<Target>, t: Target, stopped: seq<string>)
    ensures stopped + Ids(s + [t]) == (stopped + Ids(s)) + [t.id]
  {
    assert Ids(s + [t]) == Ids(s) + [t.id];
  }

  lemma NextTarget(c: Config, dryRun: bool, targets: seq<Target>, i: nat)
    requires i < |targets|
    ensures var before, t := targets[..i], targets[i];
            var now, n := targets[..i+1], Count(c, dryRun, targets[..i]);
            && Count(c, dryRun, now) == (if Stops(c, dryRun, t, n) then n + 1 else n)
            && Batch(c, dryRun, now) == Batch(c, dryRun, before) + [Stops(c, dryRun, t, n)]
            && BatchLog(c, dryRun, now) == BatchLog(c, dryRun, before) + LogOf(c, dryRun, t, n)
            && Successes(c, dryRun, now) == Successes(c, dryRun, before) + (if Stops(c, dryRun, t, n) then [t] else [])
            && Stopped(c, dryRun, now) == Stopped(c, dryRun, before) + if Acts(c, dryRun, t, n) then [t] else []
  {
    assert targets[..i+1][..i] == targets[..i];
  }

  /** The limit holds for every list of targets and every pattern of failures, up to the next whole
    * number. */
  lemma {:induction false} StopsAreLimited(c: Config, dryRun: bool, targets: seq<Target>)
    requires 0.0 <= c.maxPerRun
    ensures Count(c, dryRun, targets) == |Successes(c, dryRun, targets)|
    ensures Count(c, dryRun, targets) as real < c.maxPerRun + 1.0
    ensures c.maxPerRun.Floor as real == c.maxPerRun ==> Count(c, dryRun, targets) as real <= c.maxPerRun
  {
    hide Stops;
    if targets != [] {
      var before, last := targets[..|targets|-1], targets[|targets|-1];
      StopsAreLimited(c, dryRun, before);
      StopsBelowLimit(c, dryRun, last, Count(c, dryRun, before));
    }
  }

  lemma StopsBelowLimit(c: Config, dryRun: bool, t: Target, count: nat)
    requires 0.0 <= c.maxPerRun
    ensures Stops(c, dryRun, t, count) ==>
              (count + 1) as real < c.maxPerRun + 1.0
              && (c.maxPerRun.Floor as real == c.maxPerRun ==> (count + 1) as real <= c.maxPerRun)
  {
    hide Attempted;
    if count as real >= c.maxPerRun {
      NotAttempted(c, t, count);
    } else {
      PlusOne(count);
      if c.maxPerRun.Floor as real == c.maxPerRun { NextWhole(count, c.maxPerRun.Floor); }
    }
  }

  lemma PlusOne(n: int)
    ensures (n + 1) as real == n as real + 1.0
  {
  }

  lemma CastIsMonotone(n: int, w: int)
    requires n <= w
    ensures n as real <= w as real
  {
  }

  lemma NextWhole(n: int, w: int)
    requires n as real < w as real
    ensures (n + 1) as real <= w as real
  {
    if n >= w { CastIsMonotone(w, n); } else { CastIsMonotone(n + 1, w); }
  }

  /** What AWS stopped is what was counted and what was lost.  With a whole limit and nothing lost it stays
    * within the limit; a batch that has used the limit up stays within it iff nothing was lost. */
  lemma ReallyStopped(c: Config, dryRun: bool, targets: seq<Target>)
    requires 0.0 <= c.maxPerRun && c.maxPerRun.Floor as real == c.maxPerRun
    ensures var stopped := Stopped(c, dryRun, targets);
            && |stopped| == Count(c, dryRun, targets) + Lost(stopped)
            && (Lost(stopped) == 0 ==> |stopped| as real <= c.maxPerRun)
            && (Count(c, dryRun, targets) as real >= c.maxPerRun ==>
                  (|stopped| as real <= c.maxPerRun <==> Lost(stopped) == 0))
  {
    hide Acts, Stops;
    CountedAndLost(c, dryRun, targets);
    StopsAreLimited(c, dryRun, targets);
    var count, stopped := Count(c, dryRun, targets), Stopped(c, dryRun, targets);
    if Lost(stopped) > 0 && count as real >= c.maxPerRun {
      PlusOne(count);
      CastIsMonotone(count + 1, |stopped|);
    }
  }

  lemma {:induction false} CountedAndLost(c: Config, dryRun: bool, targets: seq<Target>)
    ensures |Stopped(c, dryRun, targets)| == Count(c, dryRun, targets) + Lost(Stopped(c, dryRun, targets))
  {
    hide Attempted;
    if targets != [] {
      var before, last := targets[..|targets|-1], targets[|targets|-1];
      CountedAndLost(c, dryRun, before);
      var s := Stopped(c, dryRun, before);
      assert (s + [last])[..|s|] == s;
      assert s + [] == s;
    }
  }

  /** With a limit of one, two stops that are not recorded both go through. */
  lemma LostStopsExceedTheLimit()
    ensures var c := TWO_AND_A_HALF.(maxPerRun := 1.0);
            var targets := [IdleTarget(1, "i-0123456789abcdef1").(unrecorded := true),
                            IdleTarget(2, "i-0123456789abcdef2").(unrecorded := true)];
            ValidConfig(c) && Count(c, false, targets) == 0 && Stopped(c, false, targets) == targets
  {
    var c := TWO_AND_A_HALF.(maxPerRun := 1.0);
    var a, b := IdleTarget(1, "i-0123456789abcdef1").(unrecorded := true), IdleTarget(2, "i-0123456789abcdef2").(unrecorded := true);
    var targets := [a, b];
    forall check | check in CHECKS ensures Passes(c, a, 0, check) && Passes(c, b, 0, check) {}
    assert targets[..0] == [] && targets[..1] == [a];
    NextTarget(c, false, targets, 0);
    NextTarget(c, false, targets, 1);
    assert targets[..2] == targets;
  }

  /** A batch as the source selects it: one row per recommendation, one recommendation per instance. */
  predicate DistinctTargets(ts: seq<Target>) {
    forall i, j :: 0 <= i < j < |ts| ==> ts[i].recId != ts[j].recId && ts[i].id != ts[j].id
  }

  /** The target passes everything but the limit, and nothing fails. */
  ghost predicate Stoppable(c: Config, dryRun: bool, t: Target) {
    forall k: nat :: k as real < c.maxPerRun ==> Stops(c, dryRun, t, k)
  }

  lemma {:induction false} AllStop(c: Config, dryRun: bool, ts: seq<Target>)
    requires forall i :: 0 <= i < |ts| ==> Stoppable(c, dryRun, ts[i])
    requires ts == [] || (|ts| - 1) as real < c.maxPerRun
    ensures Count(c, dryRun, ts) == |ts|
  {
    hide Stops;
    if ts != [] {
      var n := |ts| - 1;
      CastIsMonotone(n - 1, n);
      AllStop(c, dryRun, ts[..n]);
      assert Stoppable(c, dryRun, ts[n]);
    }
  }

  /** Given enough instances to stop, the configured limit itself is respected by every batch iff it is a
    * whole number: loading accepts a limit such as 2.5, and then three instances can be stopped. */
  lemma LimitIsRespectedIff(c: Config, dryRun: bool, supply: seq<Target>)
    requires ValidConfig(c)
    requires DistinctTargets(supply) && |supply| as real > c.maxPerRun
    requires forall i :: 0 <= i < |supply| ==> Stoppable(c, dryRun, supply[i])
    ensures (forall targets :: DistinctTargets(targets) ==> Count(c, dryRun, targets) as real <= c.maxPerRun) <==>
            c.maxPerRun.Floor as real == c.maxPerRun
  {
    hide Stoppable;
    if c.maxPerRun.Floor as real == c.maxPerRun {
      forall targets ensures Count(c, dryRun, targets) as real <= c.maxPerRun {
        StopsAreLimited(c, dryRun, targets);
      }
    } else {
      var n: nat := c.maxPerRun.Floor + 1;
      if |supply| < n { CastIsMonotone(|supply|, n - 1); }
      var targets := supply[..n];
      AllStop(c, dryRun, targets);
      assert DistinctTargets(targets) && Count(c, dryRun, targets) as real > c.maxPerRun;
    }
  }

  /** Everything allowed, and a limit of two and a half. */
  const TWO_AND_A_HALF := Config(true, {}, {}, [], 0.0, 0.0, 0.0, 2.5, Schedule(false, {}, {}))

  function IdleTarget(recId: nat, id: string): Target {
    Target(recId, id, true, true, map[], 0, 1.0, 0, "monday", 0, false, false)
  }

  /** The limit of 2.5 is a valid one, and three idle instances are stopped under it. */
  lemma ThreeStopsUnderTwoAndAHalf(dryRun: bool) returns (targets: seq<Target>)
    ensures ValidConfig(TWO_AND_A_HALF)
    ensures |targets| == 3 && DistinctTargets(targets) && Count(TWO_AND_A_HALF, dryRun, targets) == 3
  {
    targets := [IdleTarget(1, "i-0123456789abcdef1"), IdleTarget(2, "i-0123456789abcdef2"), IdleTarget(3, "i-0123456789abcdef3")];
    forall i | 0 <= i < 3 ensures Stoppable(TWO_AND_A_HALF, dryRun, targets[i]) {
      IdleIsStoppable(dryRun, targets[i].recId, targets[i].id);
    }
    assert targets[0].id[18] != targets[1].id[18] && targets[0].id[18] != targets[2].id[18] && targets[1].id[18] != targets[2].id[18];
    AllStop(TWO_AND_A_HALF, dryRun, targets);
  }

  lemma IdleIsStoppable(dryRun: bool, recId: nat, id: string)
    ensures Stoppable(TWO_AND_A_HALF, dryRun, IdleTarget(recId, id))
  {
    var t := IdleTarget(recId, id);
    forall k: nat | k as real < 2.5 ensures Stops(TWO_AND_A_HALF, dryRun, t, k) {
      forall check | check in CHECKS ensures Passes(TWO_AND_A_HALF, t, k, check) {}
    }
  }

  /** Every instance AWS was told to stop passed all seven safeguards at the count it was tried with; every
    * reported stop is one of them. */
  lemma {:induction false} EveryStopPassedAll(c: Config, dryRun: bool, targets: seq<Target>, i: nat)
    requires i < |targets| && (Batch(c, dryRun, targets)[i] || Acts(c, dryRun, targets[i], Count(c, dryRun, targets[..i])))
    ensures PassesAll(c, targets[i], Count(c, dryRun, targets[..i]))
    ensures targets[i].found && targets[i].known && (dryRun || !targets[i].awsFails)
  {
    if i < |targets| - 1 {
      assert targets[..|targets|-1][..i] == targets[..i];
      EveryStopPassedAll(c, dryRun, targets[..|targets|-1], i);
    }
  }

  /** Every instance a batch stops, reported or not, is one of its targets: known, not whitelisted by id or tag,
    * old, certain and idle enough, within the schedule, with remediation switched on and fewer stops counted
    * before it than the limit. */
  lemma {:induction false} StoppedAreEligible(c: Config, dryRun: bool, targets: seq<Target>, i: nat)
    requires i < |Stopped(c, dryRun, targets)|
    ensures var t := Stopped(c, dryRun, targets)[i];
            && t in targets && t.found && t.known && (dryRun || !t.awsFails)
            && c.autoEnabled && t.id !in c.whitelistIds
            && (forall tag :: tag in c.whitelistTags ==> !(tag.0 in t.tags && t.tags[tag.0] == tag.1))
            && t.ageDays as real >= c.minAgeDays && t.confidence >= c.minConfidence && t.idleDays as real >= c.minIdleDays
            && (c.schedule.enabled ==>
                  (c.schedule.days == {} || t.weekday in c.schedule.days) && (c.schedule.hours == {} || t.hour in c.schedule.hours))
            && 0.0 < c.maxPerRun
  {
    hide PassesAll;
    var before, last := targets[..|targets|-1], targets[|targets|-1];
    var count := Count(c, dryRun, before);
    if i < |Stopped(c, dryRun, before)| {
      StoppedAreEligible(c, dryRun, before, i);
    } else {
      SafeguardsAre(c, last, count);
      CastIsMonotone(0, count);
    }
  }

  /** What a batch adds to the stopped ids: ids of eligible targets only. */
  ghost predicate OnlyEligible(c: Config, targets: seq<Target>, before: seq<string>, after: seq<string>) {
    && before <= after
    && forall id :: id in after[|before|..] ==> EligibleId(c, targets, id)
  }

  ghost predicate EligibleId(c: Config, targets: seq<Target>, id: string) {
    exists k :: 0 <= k < |targets| && targets[k].id == id && Eligible(c, targets[k])
  }

  ghost predicate Eligible(c: Config, t: Target) {
    && t.found && t.known && c.autoEnabled && t.id !in c.whitelistIds
    && (forall tag :: tag in c.whitelistTags ==> !(tag.0 in t.tags && t.tags[tag.0] == tag.1))
    && t.ageDays as real >= c.minAgeDays && t.confidence >= c.minConfidence && t.idleDays as real >= c.minIdleDays
    && (c.schedule.enabled ==>
          (c.schedule.days == {} || t.weekday in c.schedule.days) && (c.schedule.hours == {} || t.hour in c.schedule.hours))
  }

  lemma StoppedIdIsEligible(c: Config, dryRun: bool, targets: seq<Target>, i: nat)
    requires i < |Stopped(c, dryRun, targets)|
    ensures EligibleId(c, targets, Stopped(c, dryRun, targets)[i].id)
  {
    StoppedAreEligible(c, dryRun, targets, i);
    var t := Stopped(c, dryRun, targets)[i];
    assert t in targets && Eligible(c, t);
  }

  function SucceededRows(log: seq<LogRow>): seq<nat> {
    if log == [] then []
    else SucceededRows(log[..|log|-1]) + if log[|log|-1].status == Succeeded then [log[|log|-1].recId] else []
  }

  /** Every log row a batch opens is closed as success or failure, and the successes are exactly the
    * reported stops, in order. */
  lemma {:induction false} LogIsSettled(c: Config, dryRun: bool, targets: seq<Target>)
    ensures forall k :: 0 <= k < |BatchLog(c, dryRun, targets)| ==> BatchLog(c, dryRun, targets)[k].status in {Succeeded, Failed}
    ensures SucceededRows(BatchLog(c, dryRun, targets)) == RecIds(Successes(c, dryRun, targets))
  {
    hide Attempted;
    if targets != [] {
      var before, last := targets[..|targets|-1], targets[|targets|-1];
      LogIsSettled(c, dryRun, before);
      var log, row := BatchLog(c, dryRun, before), LogOf(c, dryRun, last, Count(c, dryRun, before));
      assert row == [] || (log + row)[..|log|] == log;
      assert row == [] ==> log + row == log;
      StopsOnlyWhenAttempted(c, dryRun, last, Count(c, dryRun, before));
    }
  }

  lemma StopsOnlyWhenAttempted(c: Config, dryRun: bool, t: Target, count: nat)
    ensures Stops(c, dryRun, t, count) ==> Attempted(c, t, count)
  {
  }

  /** Once the limit is reached nothing more is attempted: going on or breaking off makes no difference. */
  lemma {:induction false} FullBatch(c: Config, dryRun: bool, targets: seq<Target>, i: nat)
    requires i <= |targets| && Count(c, dryRun, targets[..i]) as real >= c.maxPerRun
    ensures Count(c, dryRun, targets) == Count(c, dryRun, targets[..i])
    ensures BatchLog(c, dryRun, targets) == BatchLog(c, dryRun, targets[..i])
    ensures Successes(c, dryRun, targets) == Successes(c, dryRun, targets[..i])
    ensures Stopped(c, dryRun, targets) == Stopped(c, dryRun, targets[..i])
    ensures Batch(c, dryRun, targets[..i]) <= Batch(c, dryRun, targets)
    ensures forall k :: i <= k < |targets| ==> !Batch(c, dryRun, targets)[k]
  {
    if i == |targets| {
      assert targets[..i] == targets;
    } else {
      var before, last := targets[..|targets|-1], targets[|targets|-1];
      assert before[..i] == targets[..i];
      FullBatch(c, dryRun, before, i);
      NotAttempted(c, last, Count(c, dryRun, before));
    }
  }

  lemma NotAttempted(c: Config, t: Target, count: nat)
    requires count as real >= c.maxPerRun
    ensures !Attempted(c, t, count)
  {
    assert CHECKS[6] == MaxInstances && MaxInstances in CHECKS && !Passes(c, t, count, MaxInstances);
  }

  class Ec2Remediator {
    const config: Config
    const dryRun: bool
    /** actions_log, the instances AWS was told to stop, and the recommendations marked applied. */
    var log: seq<LogRow>
    var stopped: seq<string>
    var applied: seq<nat>

    constructor (config: Config, dryRun: bool)
      ensures this.config == config && this.dryRun == dryRun
      ensures log == [] && stopped == [] && applied == []
    {
      this.config, this.dryRun := config, dryRun;
      log, stopped, applied := [], [], [];
    }

    method StopInstance(t: Target, count: nat) returns (success: bool)
      modifies this
      ensures success == Stops(config, dryRun, t, count)
      ensures log == old(log) + LogOf(config, dryRun, t, count)
      ensures stopped == old(stopped) + if Acts(config, dryRun, t, count) && !dryRun then [t.id] else []
      ensures applied == old(applied) + if success then [t.recId] else []
      ensures stopped != old(stopped) <==>
                && !dryRun && t.found && t.known && !t.awsFails && config.autoEnabled && t.id !in config.whitelistIds
                && (forall tag :: tag in config.whitelistTags ==> !(tag.0 in t.tags && t.tags[tag.0] == tag.1))
                && t.ageDays as real >= config.minAgeDays && t.confidence >= config.minConfidence
                && t.idleDays as real >= config.minIdleDays
                && (config.schedule.enabled ==>
                      (config.schedule.days == {} || t.weekday in config.schedule.days)
                      && (config.schedule.hours == {} || t.hour in config.schedule.hours))
                && count as real < config.maxPerRun
    {
      SafeguardsAre(config, t, count);
      hide PassesAll;
      success := false;
      if !t.found || !t.known {
        return;
      }
      var _, safe := ValidateAll(config, t, count);
      if !safe {
        return;
      }
      var row := |log|;
      log := log + [LogRow(t.recId, Pending)];
      if !dryRun {
        if t.awsFails {
          log := log[row := LogRow(t.recId, Failed)];
          return;
        }
        stopped := stopped + [t.id];
      }
      if t.unrecorded {
        log := log[row := LogRow(t.recId, Failed)];
        return;
      }
      log := log[row := LogRow(t.recId, Succeeded)];
      applied := applied + [t.recId];
      success := true;
    }

    lemma AllEligible(targets: seq<Target>, before: seq<string>)
      ensures OnlyEligible(config, targets, before, before + if dryRun then [] else Ids(Stopped(config, dryRun, targets)))
    {
      var ids := Ids(Stopped(config, dryRun, targets));
      forall i | 0 <= i < |ids| ensures EligibleId(config, targets, ids[i]) {
        StoppedIdIsEligible(config, dryRun, targets, i);
      }
      assert (before + ids)[|before|..] == ids;
    }

    /** The backend's batch over pending stop recommendations, which breaks off at the limit. */
    method ProcessPending(targets: seq<Target>) returns (results: seq<bool>)
      modifies this
      ensures results <= Batch(config, dryRun, targets)
      ensures forall k :: |results| <= k < |targets| ==> !Batch(config, dryRun, targets)[k]
      ensures log == old(log) + BatchLog(config, dryRun, targets)
      ensures applied == old(applied) + RecIds(Successes(config, dryRun, targets))
      ensures stopped == old(stopped) + if dryRun then [] else Ids(Stopped(config, dryRun, targets))
      ensures OnlyEligible(config, targets, old(stopped), stopped) && (dryRun ==> stopped == old(stopped))
    {
      hide Acts, Stops, LogOf, BatchLog, Batch, Successes, Stopped, Count, Ids, RecIds, OnlyEligible;
      results := [];
      var stoppedCount := 0;
      EmptyBatch(config, dryRun, targets[..0]);
      for i := 0 to |targets|
        invariant stoppedCount == Count(config, dryRun, targets[..i])
        invariant results == Batch(config, dryRun, targets[..i])
        invariant log == old(log) + BatchLog(config, dryRun, targets[..i])
        invariant applied == old(applied) + RecIds(Successes(config, dryRun, targets[..i]))
        invariant stopped == old(stopped) + if dryRun then [] else Ids(Stopped(config, dryRun, targets[..i]))
      {
        NextTarget(config, dryRun, targets, i);
        ghost var before := targets[..i];
        Reassociate(old(log), BatchLog(config, dryRun, before), LogOf(config, dryRun, targets[i], stoppedCount));
        RecIdsGrow(Successes(config, dryRun, before), targets[i], old(applied));
        IdsGrow(Stopped(config, dryRun, before), targets[i], old(stopped));
        var result := StopInstance(targets[i], stoppedCount);
        results := results + [result];
        if result {
          stoppedCount := stoppedCount + 1;
        }
        if stoppedCount as real >= config.maxPerRun {
          FullBatch(config, dryRun, targets, i + 1);
          AllEligible(targets, old(stopped));
          return;
        }
      }
      assert targets[..|targets|] == targets;
      AllEligible(targets, old(stopped));
    }

    /** The UI's batch over the stop and terminate recommendations of one request, which goes on. */
    method ExecuteAll(targets: seq<Target>) returns (results: seq<bool>)
      modifies this
      ensures results == Batch(config, dryRun, targets)
      ensures log == old(log) + BatchLog(config, dryRun, targets)
      ensures applied == old(applied) + RecIds(Successes(config, dryRun, targets))
      ensures stopped == old(stopped) + if dryRun then [] else Ids(Stopped(config, dryRun, targets))
      ensures OnlyEligible(config, targets, old(stopped), stopped) && (dryRun ==> stopped == old(stopped))
    {
      hide Acts, Stops, LogOf, BatchLog, Batch, Successes, Stopped, Count, Ids, RecIds, OnlyEligible;
      results := [];
      var stoppedCount := 0;
      EmptyBatch(config, dryRun, targets[..0]);
      for i := 0 to |targets|
        invariant stoppedCount == Count(config, dryRun, targets[..i])
        invariant results == Batch(config, dryRun, targets[..i])
        invariant log == old(log) + BatchLog(config, dryRun, targets[..i])
        invariant applied == old(applied) + RecIds(Successes(config, dryRun, targets[..i]))
        invariant stopped == old(stopped) + if dryRun then [] else Ids(Stopped(config, dryRun, targets[..i]))
      {
        NextTarget(config, dryRun, targets, i);
        ghost var before := targets[..i];
        Reassociate(old(log), BatchLog(config, dryRun, before), LogOf(config, dryRun, targets[i], stoppedCount));
        RecIdsGrow(Successes(config, dryRun, before), targets[i], old(applied));
        IdsGrow(Stopped(config, dryRun, before), targets[i], old(stopped));
        var result := StopInstance(targets[i], stoppedCount);
        results := results + [result];
        if result {
          stoppedCount := stoppedCount + 1;
        }
      }
      assert targets[..|targets|] == targets;
      AllEligible(targets, old(stopped));
    }
  }

  lemma EmptyBatch(c: Config, dryRun: bool, targets: seq<Target>)
    requires targets == []
    ensures Count(c, dryRun, targets) == 0
    ensures Batch(c, dryRun, targets) == [] && BatchLog(c, dryRun, targets) == [] && Successes(c, dryRun, targets) == []
    ensures Stopped(c, dryRun, targets) == []
  {
  }

  // ----- the other remediators -------------------------------------------------------------------

  /** How the AWS call of a remediator can end. */
  datatype CallResult = Done | Refused | Broken

  /** A resource as the remediator finds it. */
  datatype ResourceTarget = ResourceTarget(
    recId: nat, id: string, action: string, found: bool, wasteful: bool, known: bool, tags: map<string, string>,
    confidence: real, weekday: string, hour: int, call: CallResult)

  /** Everything that must hold before the AWS call: the live checks and the safeguards. */
  predicate Cleared(c: Config, dryRun: bool, t: ResourceTarget) {
    && t.found && t.wasteful
    && t.action !in c.disabledActions
    && t.known && !Whitelisted(c, t.id, t.tags)
    && t.confidence >= c.minConfidence
    && OnSchedule(c, t.weekday, t.hour)
    && (dryRun || c.autoEnabled)
  }

  lemma ClearedIs(c: Config, dryRun: bool, t: ResourceTarget)
    ensures Cleared(c, dryRun, t) <==>
            && t.found && t.wasteful && t.action !in c.disabledActions && t.known && !Whitelisted(c, t.id, t.tags)
            && t.confidence >= c.minConfidence && OnSchedule(c, t.weekday, t.hour) && (dryRun || c.autoEnabled)
    ensures Cleared(c, dryRun, t) <==>
            && t.found && t.wasteful && t.action !in c.disabledActions && t.known
            && t.id !in c.whitelistIds
            && (forall tag :: tag in c.whitelistTags ==> !(tag.0 in t.tags && t.tags[tag.0] == tag.1))
            && t.confidence >= c.minConfidence
            && (c.schedule.enabled ==>
                  (c.schedule.days == {} || t.weekday in c.schedule.days)
                  && (c.schedule.hours == {} || t.hour in c.schedule.hours))
            && (dryRun || c.autoEnabled)
  {
    NotWhitelisted(c, t.id, t.tags);
    hide Whitelisted;
  }

  class ResourceRemediator {
    const config: Config
    const dryRun: bool
    var log: seq<LogRow>
    /** Recommendations with a rollback snapshot, in the order they were taken. */
    var snapshots: seq<nat>
    /** The AWS calls issued, whatever they answered. */
    var calls: seq<nat>
    var applied: seq<nat>

    constructor (config: Config, dryRun: bool)
      ensures this.config == config && this.dryRun == dryRun
      ensures log == [] && snapshots == [] && calls == [] && applied == []
    {
      this.config, this.dryRun := config, dryRun;
      log, snapshots, calls, applied := [], [], [], [];
    }

    /** AWS is called iff everything is clear and this is not a dry run, and only after the rollback
      * snapshot; the recommendation is marked applied iff the call went through; the log row, if any,
      * is closed. */
    method Remediate(t: ResourceTarget) returns (success: bool)
      modifies this
      ensures success <==> Cleared(config, dryRun, t) && (dryRun || t.call == Done)
      ensures calls == old(calls) + if Cleared(config, dryRun, t) && !dryRun then [t.recId] else []
      ensures calls != old(calls) <==>
                && !dryRun && t.found && t.wasteful && t.action !in config.disabledActions && t.known
                && t.id !in config.whitelistIds
                && (forall tag :: tag in config.whitelistTags ==> !(tag.0 in t.tags && t.tags[tag.0] == tag.1))
                && t.confidence >= config.minConfidence
                && (config.schedule.enabled ==>
                      (config.schedule.days == {} || t.weekday in config.schedule.days)
                      && (config.schedule.hours == {} || t.hour in config.schedule.hours))
                && config.autoEnabled
      ensures snapshots == old(snapshots) + if Cleared(config, dryRun, t) then [t.recId] else []
      ensures applied == old(applied) + if success && !dryRun then [t.recId] else []
      ensures Cleared(config, dryRun, t) ==>
                log == old(log) + [LogRow(t.recId, if success then Succeeded else if t.call == Refused then Blocked else Failed)]
      ensures !Cleared(config, dryRun, t) ==> log == old(log)
    {
      ClearedIs(config, dryRun, t);
      hide Whitelisted, OnSchedule, Cleared;
      success := false;
      if !t.found || !t.wasteful { return; }
      if t.action in config.disabledActions { return; }
      if !t.known { return; }
      if Whitelisted(config, t.id, t.tags) { return; }
      if t.confidence < config.minConfidence { return; }
      if !OnSchedule(config, t.weekday, t.hour) { return; }
      if !dryRun && !config.autoEnabled { return; }
      var row := |log|;
      log := log + [LogRow(t.recId, Pending)];
      snapshots := snapshots + [t.recId];
      if !dryRun {
        calls := calls + [t.recId];
        match t.call
        case Refused =>
          log := log[row := LogRow(t.recId, Blocked)];
          return;
        case Broken =>
          log := log[row := LogRow(t.recId, Failed)];
          return;
        case Done =>
      }
      log := log[row := LogRow(t.recId, Succeeded)];
      if !dryRun {
        applied := applied + [t.recId];
      }
      success := true;
    }
  }
}
