/** The grace executor taken apart (ui/jobs.py, grace_executor_job): a tick is a SELECT and then one
  * execution per selected row, with steps of the API and of the other jobs anywhere in between, and it may
  * break off.  The executor does not look at a row's status again after its SELECT. */
module GraceInterleaving {
  import opened Wrappers
  import opened Recommendations
  import opened Lifecycle
  import AwsSync
  import Ec2Actions
  import Remediation

  /** What a running tick holds: the state its SELECT saw and the rows it has yet to execute. */
  datatype Tick = NoTick | Running(selected: State, left: seq<Resource>)

  datatype Fine = Fine(s: State, tick: Tick)

  /** `closes`: the statements after the execution go through; otherwise the tick ends there. */
  datatype Micro =
    | Select(due: seq<Resource>)
    | Row(answer: Answers, closes: bool)
    | Stop
    | Between(e: Event)

  /** The scheduler never runs two ticks of the job at once. */
  ghost predicate MayHappen(f: Fine, m: Micro) {
    match m
    case Select(due) => f.tick == NoTick && SelectsDue(f.s, due)
    case Row(_, _) => f.tick.Running? && f.tick.left != []
    case Stop => f.tick.Running?
    case Between(e) => !e.GraceTick?
  }

  /** A row whose closing statements fail keeps its columns, unless the remediator has marked it applied. */
  function BrokenRow(s: State, k: Resource, recType: string, dryRun: bool, a: Answers): State
    requires k in s.recs
  {
    var mode := EffectiveMode(s.cfg, recType);
    var d := Perform(s.cfg.(dryRun := dryRun), mode, a);
    var applied := mode == Remediator && d.success && !dryRun;
    State(s.cfg, if applied then s.recs[k := s.recs[k].(status := Applied)] else s.recs,
          RowStatement(s, k, recType, dryRun, a).writes)
  }

  /** Dry-run is read with the SELECT, and the type of each row comes from it; the other settings are read at
    * each row. */
  function Execution(selected: State, s: State, k: Resource, a: Answers, closes: bool): State {
    if k !in selected.recs || k !in s.recs then s
    else if closes then RowStatement(s, k, selected.recs[k].recType, selected.cfg.dryRun, a)
    else BrokenRow(s, k, selected.recs[k].recType, selected.cfg.dryRun, a)
  }

  function Next(f: Fine, m: Micro): Fine {
    match m
    case Select(due) => Fine(f.s, Running(f.s, due))
    case Row(a, closes) =>
      if f.tick == NoTick || f.tick.left == [] then f
      else Fine(Execution(f.tick.selected, f.s, f.tick.left[0], a, closes),
                if closes then Running(f.tick.selected, f.tick.left[1..]) else NoTick)
    case Stop => Fine(f.s, NoTick)
    case Between(e) => Fine(Step(f.s, e), f.tick)
  }

  ghost predicate IsFineRun(fs: seq<Fine>, ms: seq<Micro>) {
    && |fs| == |ms| + 1
    && fs[0].s.recs == map[] && fs[0].s.writes == [] && fs[0].tick == NoTick
    && forall i :: 0 <= i < |ms| ==> MayHappen(fs[i], ms[i]) && fs[i+1] == Next(fs[i], ms[i])
  }

  predicate RowOn(f: Fine, m: Micro, k: Resource) {
    m.Row? && f.tick.Running? && f.tick.left != [] && f.tick.left[0] == k
  }

  /** The row of k is executed and attempts an AWS write. */
  predicate Attempt(f: Fine, m: Micro, k: Resource) {
    && RowOn(f, m, k) && k in f.tick.selected.recs && k in f.s.recs
    && Perform(f.s.cfg.(dryRun := f.tick.selected.cfg.dryRun),
               EffectiveMode(f.s.cfg, f.tick.selected.recs[k].recType), m.answer).wrote
  }

  /** A step of somebody else after which the row is no longer scheduled. */
  predicate TakesBack(f: Fine, m: Micro, k: Resource) {
    m.Between? && HasStatus(f.s, k, Scheduled) && !HasStatus(Step(f.s, m.e), k, Scheduled)
  }

  // ----- single steps --------------------------------------------------------------------------------

  lemma ExecutionFacts(selected: State, s: State, k: Resource, a: Answers, closes: bool, other: Resource)
    ensures var t := Execution(selected, s, k, a, closes);
            && t.cfg == s.cfg && t.recs.Keys == s.recs.Keys && s.writes <= t.writes
            && (other != k && other in s.recs ==> t.recs[other] == s.recs[other])
            && (HasStatus(t, k, Scheduled) ==> HasStatus(s, k, Scheduled) && t.recs[k] == s.recs[k])
            && (closes && k in selected.recs ==> !HasStatus(t, k, Scheduled))
  {
    hide EffectiveMode, Perform;
  }

  lemma NothingIsLost(f: Fine, m: Micro)
    requires MayHappen(f, m)
    ensures f.s.cfg.now <= Next(f, m).s.cfg.now && f.s.recs.Keys <= Next(f, m).s.recs.Keys && f.s.writes <= Next(f, m).s.writes
  {
    hide Execution, Step;
    if m.Row? {
      ExecutionFacts(f.tick.selected, f.s, f.tick.left[0], m.answer, m.closes, f.tick.left[0]);
    } else if m.Between? {
      Lifecycle.NothingIsLost(f.s, m.e);
    }
  }

  lemma BecomesScheduled(f: Fine, m: Micro, k: Resource)
    requires MayHappen(f, m) && !HasStatus(f.s, k, Scheduled) && HasStatus(Next(f, m).s, k, Scheduled)
    ensures m.Between? && Schedules(f.s, m.e, k)
    ensures Next(f, m).s.recs[k] == f.s.recs[k].(status := Scheduled, executeAfter := Some(f.s.cfg.now + f.s.cfg.graceDays * DAY))
  {
    hide Execution, Step;
    if m.Row? {
      ExecutionFacts(f.tick.selected, f.s, f.tick.left[0], m.answer, m.closes, k);
      assert false;
    } else if m.Between? {
      Lifecycle.BecomesScheduled(f.s, m.e, k);
    }
  }

  lemma StaysScheduled(f: Fine, m: Micro, k: Resource)
    requires MayHappen(f, m) && HasStatus(f.s, k, Scheduled) && HasStatus(Next(f, m).s, k, Scheduled)
    ensures Next(f, m).s.recs[k] == f.s.recs[k]
  {
    hide Execution, Step;
    if m.Row? {
      ExecutionFacts(f.tick.selected, f.s, f.tick.left[0], m.answer, m.closes, k);
    } else if m.Between? {
      Lifecycle.StaysScheduled(f.s, m.e, k);
    }
  }

  /** What ends a scheduling: its own execution, or a step that takes it back. */
  lemma StopsBeingScheduled(f: Fine, m: Micro, k: Resource)
    requires MayHappen(f, m) && HasStatus(f.s, k, Scheduled) && !HasStatus(Next(f, m).s, k, Scheduled)
    ensures RowOn(f, m, k) || TakesBack(f, m, k)
  {
    hide Execution, Step;
    if m.Row? {
      ExecutionFacts(f.tick.selected, f.s, f.tick.left[0], m.answer, m.closes, k);
    }
  }

  predicate WithdrawsOrResolves(m: Micro, k: Resource) {
    m.Between? && (m.e.SyncTick? || (m.e.Act? && m.e.k == k && m.e.action in {Cancel, Approve}))
  }

  /** Only a cancellation, a new approval or a sync takes a scheduled row back. */
  lemma WhoTakesBack(f: Fine, m: Micro, k: Resource)
    requires MayHappen(f, m) && TakesBack(f, m, k)
    ensures WithdrawsOrResolves(m, k)
  {
    hide EffectiveMode, Perform, AwsSync.SyncResolves;
  }

  // ----- runs ----------------------------------------------------------------------------------------

  lemma {:induction false} TimePasses(fs: seq<Fine>, ms: seq<Micro>, i: nat, n: nat, k: Resource)
    requires IsFineRun(fs, ms) && i <= n <= |ms|
    ensures fs[i].s.cfg.now <= fs[n].s.cfg.now && (k in fs[i].s.recs ==> k in fs[n].s.recs)
  {
    hide MayHappen, Next;
    if i < n {
      TimePasses(fs, ms, i, n - 1, k);
      NothingIsLost(fs[n-1], ms[n-1]);
    }
  }

  /** The SELECT of a running tick; since then the tick has worked through its rows in order. */
  lemma {:induction false} SelectOf(fs: seq<Fine>, ms: seq<Micro>, n: nat) returns (m: nat)
    requires IsFineRun(fs, ms) && n <= |ms| && fs[n].tick.Running?
    ensures m < n && ms[m].Select? && fs[m].s == fs[n].tick.selected && SelectsDue(fs[m].s, ms[m].due)
    ensures forall i :: m < i <= n ==>
              && fs[i].tick.Running? && fs[i].tick.selected == fs[m].s
              && |fs[n].tick.left| <= |fs[i].tick.left| <= |ms[m].due|
              && fs[i].tick.left == ms[m].due[|ms[m].due| - |fs[i].tick.left|..]
    ensures forall i :: m < i < n && ms[i].Row? ==> |fs[n].tick.left| < |fs[i].tick.left|
  {
    hide SelectsDue, Next, MayHappen;
    TickSteps(fs[n-1], ms[n-1]);
    if ms[n-1].Select? {
      m := n - 1;
    } else {
      m := SelectOf(fs, ms, n - 1);
    }
  }

  /** A tick that is running was begun by this step, or was running before it and has lost a row at most. */
  lemma TickSteps(f: Fine, m: Micro)
    requires MayHappen(f, m) && Next(f, m).tick.Running?
    ensures m.Select? ==> SelectsDue(f.s, m.due) && Next(f, m) == Fine(f.s, Running(f.s, m.due))
    ensures !m.Select? ==> f.tick.Running? && f.tick.selected == Next(f, m).tick.selected
    ensures m.Row? ==> f.tick.left != [] && Next(f, m).tick.left == f.tick.left[1..]
    ensures !m.Select? && !m.Row? ==> Next(f, m).tick.left == f.tick.left
  {
    hide SelectsDue, Execution, Step;
  }

  /** A row that is executed was due at the SELECT of its tick and has not been executed since. */
  lemma RowWasDue(fs: seq<Fine>, ms: seq<Micro>, n: nat, k: Resource) returns (m: nat)
    requires IsFineRun(fs, ms) && n < |ms| && RowOn(fs[n], ms[n], k)
    ensures m < n && ms[m].Select? && k in ms[m].due && Due(fs[m].s, k) && fs[n].tick.selected == fs[m].s
    ensures forall i :: m < i < n ==> !RowOn(fs[i], ms[i], k)
    ensures forall i :: m < i < n ==> fs[i].tick.Running?
  {
    hide MayHappen, Next;
    m := SelectOf(fs, ms, n);
    var due := ms[m].due;
    var at := |due| - |fs[n].tick.left|;
    assert due[at] == k && due[at] in due;
    forall i | m < i < n && ms[i].Row? && fs[i].tick.left != [] ensures fs[i].tick.left[0] != k {
      assert due[|due| - |fs[i].tick.left|] == fs[i].tick.left[0];
    }
  }

  /** Nobody takes k back in the steps from i on and before n. */
  ghost predicate Kept(fs: seq<Fine>, ms: seq<Micro>, i: int, n: int, k: Resource)
    requires |fs| == |ms| + 1 && 0 <= i && n <= |ms|
  {
    forall j :: i <= j < n ==> !TakesBack(fs[j], ms[j], k)
  }

  /** A scheduling lasts, unchanged, iff nobody takes it back and its row is not executed. */
  lemma {:induction false} ScheduledWhile(fs: seq<Fine>, ms: seq<Micro>, i: nat, n: nat, k: Resource)
    requires IsFineRun(fs, ms) && i <= n <= |ms| && HasStatus(fs[i].s, k, Scheduled)
    requires forall j :: i <= j < n ==> !RowOn(fs[j], ms[j], k)
    ensures (forall j :: i <= j <= n ==> HasStatus(fs[j].s, k, Scheduled)) <==> Kept(fs, ms, i, n, k)
    ensures Kept(fs, ms, i, n, k) ==> k in fs[n].s.recs && fs[n].s.recs[k] == fs[i].s.recs[k]
  {
    hide MayHappen, RowOn, TakesBack;
    if i < n {
      ScheduledWhile(fs, ms, i, n - 1, k);
      assert MayHappen(fs[n-1], ms[n-1]) && fs[n] == Next(fs[n-1], ms[n-1]);
      if HasStatus(fs[n-1].s, k, Scheduled) {
        ScheduledOrNot(fs[n-1], ms[n-1], k);
      }
    }
  }

  lemma ScheduledOrNot(f: Fine, m: Micro, k: Resource)
    requires MayHappen(f, m) && HasStatus(f.s, k, Scheduled) && !RowOn(f, m, k)
    ensures HasStatus(Next(f, m).s, k, Scheduled) <==> !TakesBack(f, m, k)
    ensures !TakesBack(f, m, k) ==> Next(f, m).s.recs[k] == f.s.recs[k]
  {
    if HasStatus(Next(f, m).s, k, Scheduled) {
      StaysScheduled(f, m, k);
    } else {
      StopsBeingScheduled(f, m, k);
    }
  }

  // ----- attempts over whole runs --------------------------------------------------------------------

  /** Behind every scheduled recommendation there is the approval that scheduled it, unchanged since. */
  lemma {:induction false} SchedulingOf(fs: seq<Fine>, ms: seq<Micro>, n: nat, k: Resource) returns (j: nat)
    requires IsFineRun(fs, ms) && n <= |ms| && HasStatus(fs[n].s, k, Scheduled)
    ensures j < n && ms[j].Between? && Schedules(fs[j].s, ms[j].e, k)
    ensures forall i :: j < i <= n ==> HasStatus(fs[i].s, k, Scheduled) && fs[i].s.recs[k] == fs[n].s.recs[k]
    ensures fs[n].s.recs[k].executeAfter == Some(fs[j].s.cfg.now + fs[j].s.cfg.graceDays * DAY)
  {
    hide MayHappen, Next, Schedules;
    if HasStatus(fs[n-1].s, k, Scheduled) {
      StaysScheduled(fs[n-1], ms[n-1], k);
      j := SchedulingOf(fs, ms, n - 1, k);
    } else {
      BecomesScheduled(fs[n-1], ms[n-1], k);
      j := n - 1;
    }
  }

  /** Every attempt of the grace executor goes back to a SELECT and from there to an approval.  The SELECT came
    * no earlier than the deadline that approval set, found the recommendation scheduled without interruption
    * since, and was not under dry-run; the action is enabled at the attempt.  Up to the attempt it stays
    * scheduled iff nobody takes it back after the SELECT, which a cancellation, another approval and a sync
    * can do. */
  lemma AttemptIsEarned(fs: seq<Fine>, ms: seq<Micro>, n: nat, k: Resource) returns (j: nat, m: nat)
    requires IsFineRun(fs, ms) && n < |ms| && Attempt(fs[n], ms[n], k)
    ensures j < m < n && ms[j].Between? && Schedules(fs[j].s, ms[j].e, k)
    ensures ms[m].Select? && k in ms[m].due && forall i :: m < i <= n ==> fs[i].tick.Running?
    ensures fs[j].s.cfg.now + fs[j].s.cfg.graceDays * DAY <= fs[m].s.cfg.now <= fs[n].s.cfg.now
    ensures forall i :: j < i <= m ==> HasStatus(fs[i].s, k, Scheduled)
    ensures !fs[m].s.cfg.dryRun && EffectiveMode(fs[n].s.cfg, fs[m].s.recs[k].recType) != Manual
    ensures (forall i :: j < i <= n ==> HasStatus(fs[i].s, k, Scheduled)) <==> Kept(fs, ms, m + 1, n, k)
    ensures forall i :: m < i < n && TakesBack(fs[i], ms[i], k) ==> WithdrawsOrResolves(ms[i], k)
  {
    hide MayHappen, Next, Schedules, EffectiveMode, Perform, TakesBack, WithdrawsOrResolves, Kept;
    forall i | 0 <= i < |ms| && TakesBack(fs[i], ms[i], k) ensures WithdrawsOrResolves(ms[i], k) {
      WhoTakesBack(fs[i], ms[i], k);
    }
    m := RowWasDue(fs, ms, n, k);
    j := SchedulingOf(fs, ms, m, k);
    TimePasses(fs, ms, m, n, k);
    SelectStep(fs, ms, m, k);
    ScheduledWhile(fs, ms, m + 1, n, k);
    AttemptsAreReal(fs[n].s.cfg.(dryRun := fs[m].s.cfg.dryRun), EffectiveMode(fs[n].s.cfg, fs[m].s.recs[k].recType), ms[n].answer);
    assert (forall i :: j < i <= n ==> HasStatus(fs[i].s, k, Scheduled)) <==>
           (forall i :: m + 1 <= i <= n ==> HasStatus(fs[i].s, k, Scheduled));
  }

  /** A SELECT changes no recommendation. */
  lemma SelectStep(fs: seq<Fine>, ms: seq<Micro>, m: nat, k: Resource)
    requires IsFineRun(fs, ms) && m < |ms| && ms[m].Select?
    ensures fs[m+1].s == fs[m].s && !RowOn(fs[m], ms[m], k) && !TakesBack(fs[m], ms[m], k)
  {
    assert fs[m+1] == Next(fs[m], ms[m]);
  }

  /** The step schedules the recommendation. */
  predicate Arms(f: Fine, m: Micro, k: Resource) {
    m.Between? && !HasStatus(f.s, k, Scheduled) && HasStatus(Step(f.s, m.e), k, Scheduled)
  }

  /** At its turn a row is still scheduled and due iff nobody took it back after the SELECT, or it was
    * scheduled again since, with nobody taking it back after that and with that grace period over too. */
  lemma DueAtItsTurnIff(fs: seq<Fine>, ms: seq<Micro>, n: nat, k: Resource) returns (m: nat)
    requires IsFineRun(fs, ms) && n < |ms| && RowOn(fs[n], ms[n], k)
    ensures m < n && ms[m].Select? && k in ms[m].due && forall i :: m < i <= n ==> fs[i].tick.Running?
    ensures Due(fs[n].s, k) <==> Kept(fs, ms, m + 1, n, k) || exists i :: m < i < n && RunsOut(fs, ms, i, n, k)
  {
    hide MayHappen, Next, TakesBack, Kept, RunsOut;
    m := RowWasDue(fs, ms, n, k);
    TimePasses(fs, ms, m, n, k);
    SelectStep(fs, ms, m, k);
    ScheduledWhile(fs, ms, m + 1, n, k);
    forall i | m < i < n && RunsOut(fs, ms, i, n, k) ensures Due(fs[n].s, k) {
      RunOutIsDue(fs, ms, i, n, k);
    }
    if Due(fs[n].s, k) && !Kept(fs, ms, m + 1, n, k) {
      var i := SchedulingStep(fs, ms, m + 1, n, k);
      DueSince(fs, ms, i, n, k);
    }
  }

  /** Step i schedules k, nobody takes it back before n, and its grace period is over by then. */
  ghost predicate RunsOut(fs: seq<Fine>, ms: seq<Micro>, i: int, n: int, k: Resource)
    requires |fs| == |ms| + 1 && 0 <= i < n <= |ms|
  {
    && Arms(fs[i], ms[i], k) && Kept(fs, ms, i + 1, n, k)
    && fs[i].s.cfg.now + fs[i].s.cfg.graceDays * DAY <= fs[n].s.cfg.now
  }

  lemma RunOutIsDue(fs: seq<Fine>, ms: seq<Micro>, i: nat, n: nat, k: Resource)
    requires IsFineRun(fs, ms) && i < n <= |ms| && RunsOut(fs, ms, i, n, k)
    requires forall j :: i < j < n ==> !RowOn(fs[j], ms[j], k)
    ensures Due(fs[n].s, k)
  {
    hide MayHappen, Next, TakesBack, Arms, Kept;
    ArmedAt(fs, ms, i, k);
    ScheduledWhile(fs, ms, i + 1, n, k);
  }

  lemma DueSince(fs: seq<Fine>, ms: seq<Micro>, i: nat, n: nat, k: Resource)
    requires IsFineRun(fs, ms) && i < n <= |ms| && Arms(fs[i], ms[i], k) && Due(fs[n].s, k)
    requires forall j :: i < j <= n ==> HasStatus(fs[j].s, k, Scheduled)
    requires forall j :: i < j < n ==> !RowOn(fs[j], ms[j], k)
    ensures RunsOut(fs, ms, i, n, k)
  {
    hide MayHappen, Next, TakesBack, Arms, Kept;
    ArmedAt(fs, ms, i, k);
    ScheduledWhile(fs, ms, i + 1, n, k);
  }

  lemma ArmedAt(fs: seq<Fine>, ms: seq<Micro>, i: nat, k: Resource)
    requires IsFineRun(fs, ms) && i < |ms| && Arms(fs[i], ms[i], k)
    ensures HasStatus(fs[i+1].s, k, Scheduled)
    ensures fs[i+1].s.recs[k].executeAfter == Some(fs[i].s.cfg.now + fs[i].s.cfg.graceDays * DAY)
  {
    hide Step, Schedules;
    assert fs[i+1] == Next(fs[i], ms[i]);
    BecomesScheduled(fs[i], ms[i], k);
  }

  /** The last step that scheduled a recommendation which was not scheduled all along. */
  lemma {:induction false} SchedulingStep(fs: seq<Fine>, ms: seq<Micro>, i: nat, n: nat, k: Resource) returns (j: nat)
    requires IsFineRun(fs, ms) && i <= n <= |ms| && HasStatus(fs[n].s, k, Scheduled)
    requires !forall l :: i <= l <= n ==> HasStatus(fs[l].s, k, Scheduled)
    ensures i <= j < n && Arms(fs[j], ms[j], k)
    ensures forall l :: j < l <= n ==> HasStatus(fs[l].s, k, Scheduled)
  {
    hide Step, Schedules, MayHappen;
    if HasStatus(fs[n-1].s, k, Scheduled) {
      j := SchedulingStep(fs, ms, i, n - 1, k);
    } else {
      BecomesScheduled(fs[n-1], ms[n-1], k);
      j := n - 1;
    }
  }

  /** An attempt uses its scheduling up unless the statements after it fail, and the remediator has not closed
    * it either. */
  lemma AttemptUsesUpIff(f: Fine, m: Micro, k: Resource)
    requires MayHappen(f, m) && Attempt(f, m, k) && HasStatus(f.s, k, Scheduled)
    ensures var mode := EffectiveMode(f.s.cfg, f.tick.selected.recs[k].recType);
            HasStatus(Next(f, m).s, k, Scheduled) <==>
              !m.closes && !(mode == Remediator && Perform(f.s.cfg.(dryRun := f.tick.selected.cfg.dryRun), mode, m.answer).success)
  {
    hide EffectiveMode, Perform;
    AttemptsAreReal(f.s.cfg.(dryRun := f.tick.selected.cfg.dryRun),
                    EffectiveMode(f.s.cfg, f.tick.selected.recs[k].recType), m.answer);
  }

  /** Between two attempts there is a new approval, if the first one was closed. */
  lemma AttemptsAreSeparated(fs: seq<Fine>, ms: seq<Micro>, n: nat, n': nat, k: Resource) returns (j: nat)
    requires IsFineRun(fs, ms) && n < n' < |ms|
    requires Attempt(fs[n], ms[n], k) && Attempt(fs[n'], ms[n'], k) && ms[n].closes
    ensures n < j < n' && ms[j].Between? && Schedules(fs[j].s, ms[j].e, k)
  {
    hide MayHappen, Schedules, EffectiveMode, Perform, Execution, Step;
    var m := RowWasDue(fs, ms, n', k);
    assert n < m by {
      assert ms[n].Row? && !(m < n < n');
    }
    assert fs[n+1] == Next(fs[n], ms[n]);
    ExecutionFacts(fs[n].tick.selected, fs[n].s, k, ms[n].answer, true, k);
    j := SchedulingOf(fs, ms, m, k);
    assert !(j < n + 1 <= m);
  }

  /** Whether a row writes is decided by the dry-run setting its SELECT was read with, whatever it is by then. */
  lemma DryRunOfTheSelectDecides(fs: seq<Fine>, ms: seq<Micro>, n: nat, k: Resource) returns (m: nat)
    requires IsFineRun(fs, ms) && n < |ms| && RowOn(fs[n], ms[n], k)
    ensures m < n && ms[m].Select? && forall i :: m < i <= n ==> fs[i].tick.Running?
    ensures k in fs[m].s.recs && k in fs[n].s.recs
    ensures fs[n+1].s.writes != fs[n].s.writes <==>
            && !fs[m].s.cfg.dryRun
            && Perform(fs[n].s.cfg.(dryRun := false), EffectiveMode(fs[n].s.cfg, fs[m].s.recs[k].recType), ms[n].answer).wrote
  {
    hide EffectiveMode, Perform, MayHappen, Step, GraceStatus;
    m := RowWasDue(fs, ms, n, k);
    TimePasses(fs, ms, m, n, k);
    assert fs[n+1] == Next(fs[n], ms[n]);
    var c, mode := fs[n].s.cfg, EffectiveMode(fs[n].s.cfg, fs[m].s.recs[k].recType);
    AttemptsAreReal(c.(dryRun := fs[m].s.cfg.dryRun), mode, ms[n].answer);
    assert !fs[m].s.cfg.dryRun ==> c.(dryRun := fs[m].s.cfg.dryRun) == c.(dryRun := false);
  }

  lemma GrowsByOne(f: Fine, m: Micro, w: Write)
    requires MayHappen(f, m) && w in Next(f, m).s.writes && w !in f.s.writes
    ensures w.at == f.s.cfg.now && EffectiveMode(f.s.cfg, w.recType) != Manual
    ensures w.caller == Grace ==> Attempt(f, m, w.resource) && !f.tick.selected.cfg.dryRun
    ensures w.caller == Api ==> m.Between? && m.e.Act? && m.e.action == Approve && m.e.k == w.resource && !f.s.cfg.dryRun
  {
    hide EffectiveMode, Perform, Step;
    if m.Between? {
      Lifecycle.GrowsByOne(f.s, m.e, w.resource, w);
    } else {
      var k := f.tick.left[0];
      AttemptsAreReal(f.s.cfg.(dryRun := f.tick.selected.cfg.dryRun),
                      EffectiveMode(f.s.cfg, f.tick.selected.recs[k].recType), m.answer);
    }
  }

  /** Every AWS write of a run goes back to a step with the action automated and enabled: an approval out of
    * dry-run, or an attempt of a tick that was selected out of dry-run. */
  lemma {:induction false} WriteHasAnOrigin(fs: seq<Fine>, ms: seq<Micro>, n: nat, w: Write) returns (i: nat)
    requires IsFineRun(fs, ms) && n <= |ms| && w in fs[n].s.writes
    ensures i < n && w.at == fs[i].s.cfg.now
    ensures w.recType !in fs[i].s.cfg.disabled
    ensures w.recType in {"stop_instance", "terminate_instance", "migrate_gp2_to_gp3", "delete_volume", "delete_nat_gateway",
                          "delete_load_balancer", "release_ip", "delete_snapshot", "deregister_ami"}
    ensures w.caller == Grace ==> Attempt(fs[i], ms[i], w.resource) && !fs[i].tick.selected.cfg.dryRun
    ensures w.caller == Api ==>
              && ms[i].Between? && ms[i].e.Act? && ms[i].e.action == Approve && ms[i].e.k == w.resource
              && !fs[i].s.cfg.dryRun
  {
    hide Next, MayHappen, Attempt;
    if w in fs[n-1].s.writes {
      i := WriteHasAnOrigin(fs, ms, n - 1, w);
    } else {
      i := n - 1;
      GrowsByOne(fs[i], ms[i], w);
    }
  }

  /** The row of k is executed and closed, with success, in a tick begun out of dry-run, in an automated mode. */
  ghost predicate RowSucceeds(f: Fine, m: Micro, k: Resource) {
    && RowOn(f, m, k) && m.closes && k in f.tick.selected.recs && k in f.s.recs && !f.tick.selected.cfg.dryRun
    && var mode := EffectiveMode(f.s.cfg, f.tick.selected.recs[k].recType);
       mode != Manual && Perform(f.s.cfg.(dryRun := false), mode, m.answer).success
  }

  lemma BecomesApproved(f: Fine, m: Micro, k: Resource)
    requires MayHappen(f, m) && !HasStatus(f.s, k, Approved) && HasStatus(Next(f, m).s, k, Approved)
    ensures RowSucceeds(f, m, k) || (m.Between? && Succeeded(f.s, m.e, k))
  {
    if m.Between? {
      hide Step, Succeeded;
      Lifecycle.BecomesApproved(f.s, m.e, k);
    } else if m.Row? {
      hide EffectiveMode, Perform, Step;
      var c, selected := f.s.cfg, f.tick.selected.cfg;
      assert !selected.dryRun ==> c.(dryRun := false) == c.(dryRun := selected.dryRun);
    }
  }

  /** In every interleaved run an approved recommendation goes back to a successful execution or a merged pull
    * request. */
  lemma {:induction false} ApprovedGoesBack(fs: seq<Fine>, ms: seq<Micro>, n: nat, k: Resource) returns (j: nat)
    requires IsFineRun(fs, ms) && n <= |ms| && HasStatus(fs[n].s, k, Approved)
    ensures j < n && (RowSucceeds(fs[j], ms[j], k) || (ms[j].Between? && Succeeded(fs[j].s, ms[j].e, k)))
    ensures forall i :: j < i <= n ==> HasStatus(fs[i].s, k, Approved)
  {
    hide MayHappen, Next, RowSucceeds, Succeeded;
    if HasStatus(fs[n-1].s, k, Approved) {
      j := ApprovedGoesBack(fs, ms, n - 1, k);
    } else {
      BecomesApproved(fs[n-1], ms[n-1], k);
      j := n - 1;
    }
  }

  lemma DryRunRunWritesNothing(fs: seq<Fine>, ms: seq<Micro>, n: nat)
    requires IsFineRun(fs, ms) && n <= |ms|
    requires forall i :: 0 <= i < n ==> fs[i].s.cfg.dryRun
    ensures fs[n].s.writes == []
  {
    hide MayHappen, Next, Perform, EffectiveMode;
    if fs[n].s.writes != [] {
      var w := fs[n].s.writes[0];
      var i := WriteHasAnOrigin(fs, ms, n, w);
      if w.caller == Grace {
        var m := RowWasDue(fs, ms, i, w.resource);
      }
    }
  }

  // ----- a tick as one step --------------------------------------------------------------------------

  /** Settings that steer an execution besides dry-run. */
  predicate SameRules(c: Settings, c': Settings) { c.disabled == c'.disabled && c.guards == c'.guards }

  /** Whatever happened to it in between, a row that is closed ends with the status, and attempts a write iff,
    * a tick that is one step would have given it at the SELECT, as long as the settings stay. */
  lemma RowIsBlind(fs: seq<Fine>, ms: seq<Micro>, n: nat, k: Resource) returns (m: nat)
    requires IsFineRun(fs, ms) && n < |ms| && RowOn(fs[n], ms[n], k) && ms[n].closes
    requires SameRules(fs[n].tick.selected.cfg, fs[n].s.cfg)
    ensures m < n && ms[m].Select? && forall i :: m < i <= n ==> fs[i].tick.Running?
    ensures var atomic := GraceRow(fs[m].s, k, ms[n].answer);
            && k in atomic.recs && k in fs[n].s.recs && k in fs[n+1].s.recs
            && fs[n+1].s.recs[k] == fs[n].s.recs[k].(status := atomic.recs[k].status, executeAfter := None)
            && (fs[n+1].s.writes != fs[n].s.writes <==> Attempts(fs[m].s, k, (_: Resource) => ms[n].answer))
  {
    hide Perform, GraceStatus, MayHappen, Step;
    m := RowWasDue(fs, ms, n, k);
    TimePasses(fs, ms, m, n, k);
    var s, s', a := fs[m].s, fs[n].s, ms[n].answer;
    assert fs[n+1] == Next(fs[n], ms[n]);
    SameExecution(s'.cfg.(dryRun := s.cfg.dryRun), s.cfg, EffectiveMode(s.cfg, s.recs[k].recType), a);
  }

  /** An execution depends on the clock and the grace period in no way. */
  lemma SameExecution(c: Settings, c': Settings, mode: Mode, a: Answers)
    requires c.dryRun == c'.dryRun && SameRules(c, c')
    ensures Perform(c, mode, a) == Perform(c', mode, a)
  {
  }

  /** With nothing in between, the rows in turn are the tick as one step. */
  lemma {:induction false} UndisturbedTickIsOneStep(fs: seq<Fine>, ms: seq<Micro>, m: nat, answer: Resource -> Answers, n: nat)
    requires IsFineRun(fs, ms) && m < |ms| && ms[m].Select? && n <= |ms[m].due| && m + n < |ms|
    requires forall i :: 0 <= i < n ==> ms[m+1+i] == Row(answer(ms[m].due[i]), true)
    ensures fs[m+1+n] == Fine(GraceRows(fs[m].s, ms[m].due[..n], answer), Running(fs[m].s, ms[m].due[n..]))
  {
    hide RowStatement, BrokenRow, Step;
    var due := ms[m].due;
    if n == 0 {
      assert fs[m+1] == Next(fs[m], ms[m]) && due[0..] == due;
    } else {
      UndisturbedTickIsOneStep(fs, ms, m, answer, n - 1);
      assert MayHappen(fs[m], ms[m]) && fs[m+n+1] == Next(fs[m+n], ms[m+n]);
      OneMoreRow(fs[m].s, due, answer, n - 1);
      assert ms[m+1+(n-1)] == Row(answer(due[n-1]), true) && due[n-1..][0] == due[n-1] && due[n-1..][1..] == due[n..];
    }
  }

  lemma OneMoreRow(s: State, due: seq<Resource>, answer: Resource -> Answers, i: nat)
    requires SelectsDue(s, due) && i < |due|
    ensures GraceRows(s, due[..i+1], answer) == Execution(s, GraceRows(s, due[..i], answer), due[i], answer(due[i]), true)
  {
    var k, before := due[i], GraceRows(s, due[..i], answer);
    assert before.cfg == s.cfg && k in before.recs && k in s.recs && before.recs[k] == s.recs[k] by {
      assert forall l :: 0 <= l < |due| ==> Due(s, due[l]);
      hide GraceRow;
      TickRowByRow(s, due[..i], answer, k);
    }
    hide RowStatement, BrokenRow, SelectsDue;
    assert due[..i+1][..i] == due[..i];
    assert GraceRows(s, due[..i+1], answer) == GraceRow(before, k, answer(k));
  }

  // ----- the exceptions are real: one instance, from an empty table ------------------------------------

  const VM := Resource(EC2, "i-0123456789abcdef0")

  /** The instance answers in the first region and can be stopped. */
  const OK := Answers(
    NotRouted, true,
    Remediation.ResourceTarget(1, VM.id, "stop", true, true, true, map[], 1.0, "monday", 0, Remediation.Done),
    [Ec2Actions.Writable(true, false)], false)

  function At(now: nat, dryRun: bool, r: Rec, writes: seq<Write>): State {
    State(Settings(now, dryRun, {}, 2, Remediation.TWO_AND_A_HALF), map[VM := r], writes)
  }

  function Idle(executeAfter: Option<nat>): Rec {
    Rec(if executeAfter.Some? then Scheduled else Pending, "stop_instance", executeAfter)
  }

  function Stopped(now: nat): Write { Write(VM, "stop_instance", Grace, now) }

  const EMPTY := Fine(State(Settings(0, false, {}, 2, Remediation.TWO_AND_A_HALF), map[], []), NoTick)

  const DUE := At(2 * DAY, false, Idle(Some(2 * DAY)), [])

  /** Detected, approved under a grace period of two days, selected two days later. */
  const BEGINNING := [Between(Detect(VM, "stop_instance")), Between(Act(Approve, VM, OK)), Between(Wait(2 * DAY)), Select([VM])]

  const BEGUN := [EMPTY, Fine(At(0, false, Idle(None), []), NoTick), Fine(At(0, false, Idle(Some(2 * DAY)), []), NoTick),
                  Fine(DUE, NoTick)]

  lemma Begins()
    ensures forall i :: 0 <= i < 4 ==> MayHappen(BEGUN[i], BEGINNING[i])
    ensures forall i :: 0 <= i < 3 ==> BEGUN[i+1] == Next(BEGUN[i], BEGINNING[i])
    ensures Next(BEGUN[3], BEGINNING[3]) == Fine(DUE, Running(DUE, [VM]))
  {
    hide Perform;
    assert Due(DUE, [VM][0]) && SelectsDue(DUE, [VM]);
  }

  /** What follows the beginning step by step makes a run with it. */
  lemma Continues(fs: seq<Fine>, ms: seq<Micro>)
    requires |fs| == |ms| + 1 && fs[0] == Fine(DUE, Running(DUE, [VM]))
    requires forall i :: 0 <= i < |ms| ==> MayHappen(fs[i], ms[i]) && fs[i+1] == Next(fs[i], ms[i])
    ensures IsFineRun(BEGUN + fs, BEGINNING + ms)
  {
    hide MayHappen, Next;
    Begins();
    var all, steps := BEGUN + fs, BEGINNING + ms;
    forall i | 0 <= i < |steps| ensures MayHappen(all[i], steps[i]) && all[i+1] == Next(all[i], steps[i]) {
      if i >= 4 {
        assert all[i] == fs[i-4] && all[i+1] == fs[i-3] && steps[i] == ms[i-4];
      }
    }
  }

  /** The approval of the instance in a given state, and its execution. */
  lemma ApproveAndRow(now: nat, dryRun: bool, r: Rec, closes: bool)
    requires r == Idle(r.executeAfter)
    ensures r.executeAfter == None && !dryRun ==>
              Step(At(now, dryRun, r, []), Act(Approve, VM, OK)) == At(now, dryRun, Idle(Some(now + 2 * DAY)), [])
    ensures Step(At(now, dryRun, r, []), Act(Cancel, VM, OK)) == At(now, dryRun, Idle(None), [])
    ensures Execution(DUE, At(now, dryRun, r, []), VM, OK, closes)
         == At(now, dryRun, if closes then Rec(Approved, "stop_instance", None) else r, [Stopped(now)])
    ensures Perform(At(now, dryRun, r, []).cfg.(dryRun := false), EffectiveMode(At(now, dryRun, r, []).cfg, "stop_instance"), OK).wrote
  {
    assert Ec2Actions.Tried(OK.ec2, 0) && Ec2Actions.Writes(OK.ec2) && Ec2Actions.Succeeds(OK.ec2);
  }

  /** Cancelled and approved again after the SELECT, the instance is stopped although its new deadline is two
    * days off. */
  lemma NewDeadlineIsIgnored() returns (fs: seq<Fine>, ms: seq<Micro>)
    ensures IsFineRun(fs, ms) && |ms| == 7 && Attempt(fs[6], ms[6], VM)
    ensures HasStatus(fs[6].s, VM, Scheduled) && fs[6].s.recs[VM].executeAfter == Some(fs[6].s.cfg.now + 2 * DAY)
    ensures !HasStatus(fs[7].s, VM, Scheduled) && fs[7].s.writes == [Stopped(2 * DAY)]
  {
    hide Step, SelectsDue, Perform, EffectiveMode, Execution;
    ApproveAndRow(2 * DAY, false, Idle(Some(2 * DAY)), true);
    ApproveAndRow(2 * DAY, false, Idle(None), true);
    ApproveAndRow(2 * DAY, false, Idle(Some(4 * DAY)), true);
    var tick := Running(DUE, [VM]);
    var ms' := [Between(Act(Cancel, VM, OK)), Between(Act(Approve, VM, OK)), Row(OK, true)];
    var fs' := [Fine(DUE, tick), Fine(At(2 * DAY, false, Idle(None), []), tick),
                   Fine(At(2 * DAY, false, Idle(Some(4 * DAY)), []), tick),
                   Fine(At(2 * DAY, false, Rec(Approved, "stop_instance", None), [Stopped(2 * DAY)]), Running(DUE, []))];
    assert [VM][1..] == [];
    assert forall i :: 0 <= i < |ms'| ==> MayHappen(fs'[i], ms'[i]) && fs'[i+1] == Next(fs'[i], ms'[i]);
    Continues(fs', ms');
    fs, ms := BEGUN + fs', BEGINNING + ms';
  }

  /** With dry-run switched on after the SELECT the instance is stopped all the same. */
  lemma DryRunIsIgnored() returns (fs: seq<Fine>, ms: seq<Micro>)
    ensures IsFineRun(fs, ms) && |ms| == 6 && Attempt(fs[5], ms[5], VM)
    ensures fs[5].s.cfg.dryRun && fs[6].s.writes == [Stopped(2 * DAY)]
  {
    hide SelectsDue, Perform, EffectiveMode, Execution;
    ApproveAndRow(2 * DAY, true, Idle(Some(2 * DAY)), true);
    var tick := Running(DUE, [VM]);
    var ms' := [Between(Configure(true, {}, 2, Remediation.TWO_AND_A_HALF)), Row(OK, true)];
    var fs' := [Fine(DUE, tick), Fine(At(2 * DAY, true, Idle(Some(2 * DAY)), []), tick),
                   Fine(At(2 * DAY, true, Rec(Approved, "stop_instance", None), [Stopped(2 * DAY)]), Running(DUE, []))];
    assert [VM][1..] == [];
    assert forall i :: 0 <= i < |ms'| ==> MayHappen(fs'[i], ms'[i]) && fs'[i+1] == Next(fs'[i], ms'[i]);
    Continues(fs', ms');
    fs, ms := BEGUN + fs', BEGINNING + ms';
  }

  /** When the statements after the stop fail, the next tick stops the instance again, under the same
    * approval. */
  lemma AttemptedTwice() returns (fs: seq<Fine>, ms: seq<Micro>)
    ensures IsFineRun(fs, ms) && |ms| == 7 && Attempt(fs[4], ms[4], VM) && Attempt(fs[6], ms[6], VM)
    ensures forall i :: 2 <= i <= 6 ==> HasStatus(fs[i].s, VM, Scheduled)
  {
    hide Step, SelectsDue, Perform, EffectiveMode, Execution;
    ApproveAndRow(2 * DAY, false, Idle(Some(2 * DAY)), false);
    var again := At(2 * DAY, false, Idle(Some(2 * DAY)), [Stopped(2 * DAY)]);
    var last := Execution(again, again, VM, OK, true);
    AgainDue(again);
    var ms' := [Row(OK, false), Select([VM]), Row(OK, true)];
    var fs' := [Fine(DUE, Running(DUE, [VM])), Fine(again, NoTick), Fine(again, Running(again, [VM])),
                   Fine(last, Running(again, []))];
    assert [VM][1..] == [];
    assert forall i :: 0 <= i < |ms'| ==> MayHappen(fs'[i], ms'[i]) && fs'[i+1] == Next(fs'[i], ms'[i]);
    Continues(fs', ms');
    fs, ms := BEGUN + fs', BEGINNING + ms';
  }

  lemma AgainDue(s: State)
    requires s == At(2 * DAY, false, Idle(Some(2 * DAY)), [Stopped(2 * DAY)])
    ensures SelectsDue(s, [VM])
  {
    assert Due(s, [VM][0]);
  }
}
