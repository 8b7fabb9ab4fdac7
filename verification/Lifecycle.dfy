/** The life of a recommendation: the actions of the approval API (ui/routes/recommendations.py), the
  * grace executor and sync jobs (ui/jobs.py), the Terraform PR sync (ui/utils/terraform_pr.py) and the
  * detector upserts.  A step is one recommendation of one request, or one tick of a job; time is in
  * seconds.  GraceInterleaving takes a grace tick apart. */
module Lifecycle {
  import opened Wrappers
  import opened Recommendations
  import AwsSync
  import Ec2Actions
  import Remediation

  const DAY := 86400

  /** How many scheduled recommendations one grace tick takes. */
  const GRACE_BATCH := 20

  datatype Settings = Settings(now: nat, dryRun: bool, disabled: set<string>, graceDays: nat, guards: Remediation.Config)

  datatype Caller = Api | Grace

  /** An AWS write that was attempted. */
  datatype Write = Write(resource: Resource, recType: string, caller: Caller, at: nat)

  datatype State = State(cfg: Settings, recs: Table, writes: seq<Write>)

  /** How the Terraform PR flow answers an approval: not concerned, refused for safety, or a proposal. */
  datatype PrAnswer = NotRouted | Unsafe | Proposal

  /** What the outside world would answer to an execution. */
  datatype Answers = Answers(
    pr: PrAnswer, backendUp: bool, target: Remediation.ResourceTarget, ec2: seq<Ec2Actions.Answer>, saysNotFound: bool)

  // ----- executing one recommendation --------------------------------------------------------------

  /** The registry's mode, degraded to manual when the action is switched off. */
  function EffectiveMode(c: Settings, recType: string): Mode {
    var mode := ExecutionMode(recType);
    if mode != Manual && recType in c.disabled then Manual else mode
  }

  datatype Done = Done(success: bool, wrote: bool, saysNotFound: bool)

  /** Remediator mode runs the guarded flow, in dry-run too; boto3 mode calls AWS unless dry-run; anything
    * else only records a decision. */
  function Perform(c: Settings, mode: Mode, a: Answers): Done {
    match mode
    case Remediator =>
      var cleared := a.backendUp && Remediation.Cleared(c.guards, c.dryRun, a.target);
      var success := cleared && (c.dryRun || a.target.call == Remediation.Done);
      Done(success, cleared && !c.dryRun, !success && ((a.backendUp && !a.target.found) || a.saysNotFound))
    case Boto3 =>
      if c.dryRun then Done(true, false, false)
      else Done(Ec2Actions.Succeeds(a.ec2), Ec2Actions.Writes(a.ec2), Ec2Actions.SaysNotFound(a.ec2))
    case Manual => Done(true, false, false)
  }

  function Wrote(s: State, k: Resource, caller: Caller, d: Done): seq<Write>
    requires k in s.recs
  {
    if d.wrote then s.writes + [Write(k, s.recs[k].recType, caller, s.cfg.now)] else s.writes
  }

  function WithStatus(s: State, k: Resource, status: Status): State
    requires k in s.recs
  {
    s.(recs := s.recs[k := s.recs[k].(status := status)])
  }

  /** Which types are automated, and how; an action switched off is left to a human. */
  lemma ModesAre(c: Settings, recType: string)
    ensures var boto3 := {"stop_instance", "terminate_instance"};
            var remediated := {"migrate_gp2_to_gp3", "delete_volume", "delete_nat_gateway", "delete_load_balancer",
                               "release_ip", "delete_snapshot", "deregister_ami"};
            && (EffectiveMode(c, recType) == Boto3 <==> recType in boto3 && recType !in c.disabled)
            && (EffectiveMode(c, recType) == Remediator <==> recType in remediated && recType !in c.disabled)
            && (ExecutionMode(recType) != Manual <==> recType in boto3 + remediated)
  {
  }

  /** An execution in terms of what the world answers.  Without an automated action it succeeds and writes
    * nothing.  With boto3 it does so under dry-run; otherwise it succeeds iff some region has the instance gone
    * or stops it, and writes iff a live instance is met before that.  A remediator succeeds iff the backend is up
    * and everything is clear and, out of dry-run, the call goes through; it writes iff it gets to the call. */
  lemma ExecutionIs(c: Settings, mode: Mode, a: Answers)
    ensures var d, t, g := Perform(c, mode, a), a.target, c.guards;
            match mode
            case Manual => d == Done(true, false, false)
            case Boto3 =>
              if c.dryRun then d == Done(true, false, false)
              else
                && (d.success <==>
                      exists i :: 0 <= i < |a.ec2| && (a.ec2[i] == Ec2Actions.AlreadyGone || (a.ec2[i].Writable? && a.ec2[i].ok)))
                && (d.wrote <==>
                      exists i :: 0 <= i < |a.ec2| && a.ec2[i].Writable?
                        && forall j :: 0 <= j < i ==> a.ec2[j] != Ec2Actions.AlreadyGone && !(a.ec2[j].Writable? && a.ec2[j].ok))
                && (d.saysNotFound <==>
                      && !d.success
                      && ((forall i :: 0 <= i < |a.ec2| ==> a.ec2[i] == Ec2Actions.Absent)
                          || exists i :: 0 <= i < |a.ec2| && (a.ec2[i].Raises? || a.ec2[i].Writable?) && a.ec2[i].saysNotFound))
            case Remediator =>
              var clear :=
                && a.backendUp && t.found && t.wasteful && t.action !in g.disabledActions && t.known
                && t.id !in g.whitelistIds
                && (forall tag :: tag in g.whitelistTags ==> !(tag.0 in t.tags && t.tags[tag.0] == tag.1))
                && t.confidence >= g.minConfidence
                && (g.schedule.enabled ==>
                      (g.schedule.days == {} || t.weekday in g.schedule.days) && (g.schedule.hours == {} || t.hour in g.schedule.hours))
                && (c.dryRun || g.autoEnabled);
              && (d.success <==> clear && (c.dryRun || t.call == Remediation.Done))
              && (d.wrote <==> clear && !c.dryRun)
              && (d.saysNotFound <==> !d.success && ((a.backendUp && !t.found) || a.saysNotFound))
  {
    match mode
    case Manual =>
    case Remediator =>
      Remediation.ClearedIs(c.guards, c.dryRun, a.target);
      hide Remediation.Cleared;
    case Boto3 =>
      Ec2Actions.InTermsOfAnswers(a.ec2, 0);
      hide Ec2Actions.Succeeds, Ec2Actions.Writes, Ec2Actions.SaysNotFound;
  }

  // ----- the API -----------------------------------------------------------------------------------

  datatype Action = Reject | Dismiss | Cancel | Restore | Approve

  function Guarded(s: State, k: Resource, from: set<Status>, to: Status): State {
    if k in s.recs && s.recs[k].status in from then WithStatus(s, k, to) else s
  }

  function ApproveOne(s: State, k: Resource, a: Answers): State {
    if k !in s.recs || a.pr == Unsafe then s
    else if a.pr == Proposal then if s.cfg.dryRun then s else WithStatus(s, k, PrOpen)
    else
      var r := s.recs[k];
      var mode := EffectiveMode(s.cfg, r.recType);
      if s.cfg.graceDays > 0 && !s.cfg.dryRun && mode != Manual then
        if r.status != Pending then s
        else s.(recs := s.recs[k := r.(status := Scheduled, executeAfter := Some(s.cfg.now + s.cfg.graceDays * DAY))])
      else
        var d := Perform(s.cfg, mode, a);
        var s' := s.(writes := Wrote(s, k, Api, d));
        match mode
        case Remediator => if d.success && !s.cfg.dryRun then WithStatus(s', k, Applied) else s'
        case Manual => WithStatus(s', k, ApprovedManual)
        case Boto3 => if s.cfg.dryRun then s' else WithStatus(s', k, if d.success then Approved else Pending)
  }

  function ActOne(s: State, action: Action, k: Resource, a: Answers): State {
    match action
    case Reject => Guarded(s, k, {Pending, ApprovedManual}, Rejected)
    case Dismiss => Guarded(s, k, {Pending, ApprovedManual}, Dismissed)
    case Cancel =>
      if k in s.recs && s.recs[k].status == Scheduled
      then s.(recs := s.recs[k := s.recs[k].(status := Pending, executeAfter := None)]) else s
    case Restore => Guarded(s, k, {Rejected}, Pending)
    case Approve => ApproveOne(s, k, a)
  }

  function ActAll(s: State, action: Action, ks: seq<Resource>, a: seq<Answers>): State
    requires |a| == |ks|
  {
    if ks == [] then s
    else ActOne(ActAll(s, action, ks[..|ks|-1], a[..|ks|-1]), action, ks[|ks|-1], a[|ks|-1])
  }

  /** Where an approval leads.  An unsafe pull request refuses it; a proposal opens the pull request, unless
    * dry-run.  Under a grace period an automated action of a pending recommendation is scheduled to the second.
    * Otherwise it is executed at once: a remediator's success applies it, boto3 approves it or leaves it pending,
    * both out of dry-run only, and a manual one is marked to do. */
  lemma ApprovalOutcome(s: State, k: Resource, a: Answers)
    requires k in s.recs
    ensures var c, r, after := s.cfg, s.recs[k], ActOne(s, Approve, k, a).recs;
            var mode, success := EffectiveMode(c, r.recType), Perform(c, EffectiveMode(c, r.recType), a).success;
            && after.Keys == s.recs.Keys && (forall other :: other in after && other != k ==> after[other] == s.recs[other])
            && after[k] ==
                 match a.pr
                 case Unsafe => r
                 case Proposal => if c.dryRun then r else Rec(PrOpen, r.recType, r.executeAfter)
                 case NotRouted =>
                   if mode == Manual then Rec(ApprovedManual, r.recType, r.executeAfter)
                   else if c.dryRun then r
                   else if c.graceDays > 0 then
                     if r.status == Pending then Rec(Scheduled, r.recType, Some(c.now + c.graceDays * 86400)) else r
                   else if mode == Boto3 then Rec(if success then Approved else Pending, r.recType, r.executeAfter)
                   else if success then Rec(Applied, r.recType, r.executeAfter)
                   else r
  {
    hide Perform, EffectiveMode;
  }

  // ----- the grace executor --------------------------------------------------------------------------

  function GraceStatus(d: Done, dryRun: bool, mode: Mode): Status {
    if d.success && !dryRun && mode != Manual then Approved
    else if !d.success && d.saysNotFound then Obsolete
    else Pending
  }

  /** The execution of one selected row.  The type comes from the SELECT and dry-run was read after it; the
    * statement that closes the row names its id and nothing else. */
  function RowStatement(s: State, k: Resource, recType: string, dryRun: bool, a: Answers): State
    requires k in s.recs
  {
    var mode := EffectiveMode(s.cfg, recType);
    var d := Perform(s.cfg.(dryRun := dryRun), mode, a);
    State(s.cfg, s.recs[k := s.recs[k].(status := GraceStatus(d, dryRun, mode), executeAfter := None)],
          if d.wrote then s.writes + [Write(k, recType, Grace, s.cfg.now)] else s.writes)
  }

  function GraceRow(s: State, k: Resource, a: Answers): State {
    if k in s.recs then RowStatement(s, k, s.recs[k].recType, s.cfg.dryRun, a) else s
  }

  function GraceRows(s: State, due: seq<Resource>, answers: Resource -> Answers): State {
    if due == [] then s
    else GraceRow(GraceRows(s, due[..|due|-1], answers), due[|due|-1], answers(due[|due|-1]))
  }

  predicate Due(s: State, k: Resource) {
    && k in s.recs && s.recs[k].status == Scheduled
    && s.recs[k].executeAfter.Some? && s.recs[k].executeAfter.value <= s.cfg.now
  }

  predicate NoDuplicates(ks: seq<Resource>) { forall i, j :: 0 <= i < j < |ks| ==> ks[i] != ks[j] }

  /** The executor's SELECT: due rows, the earliest deadlines first, at most twenty. */
  ghost predicate SelectsDue(s: State, due: seq<Resource>) {
    && NoDuplicates(due) && |due| <= GRACE_BATCH
    && (forall i :: 0 <= i < |due| ==> Due(s, due[i]))
    && (forall i, j :: 0 <= i < j < |due| ==> s.recs[due[i]].executeAfter.value <= s.recs[due[j]].executeAfter.value)
    && (forall k :: Due(s, k) && k !in due ==>
          |due| == GRACE_BATCH && s.recs[due[|due|-1]].executeAfter.value <= s.recs[k].executeAfter.value)
  }

  // ----- pull requests and detectors -----------------------------------------------------------------

  datatype PrState = Merged | Closed | StillOpen

  function PrSynced(recs: Table, state: Resource -> PrState): Table {
    map k | k in recs ::
      if recs[k].status != PrOpen || state(k) == StillOpen then recs[k]
      else recs[k].(status := if state(k) == Merged then Approved else Rejected)
  }

  /** The idle-instance detector refreshes a pending recommendation and revives an obsolete one. */
  function IdleUpsert(recs: Table, k: Resource, recType: string): Table {
    if k !in recs then recs[k := Rec(Pending, recType, None)]
    else if recs[k].status in {Pending, Obsolete} then recs[k := recs[k].(status := Pending, recType := recType)]
    else recs
  }

  /** Every other detector inserts, or refreshes figures that are not modelled. */
  function PlainUpsert(recs: Table, k: Resource, recType: string): Table {
    if k !in recs then recs[k := Rec(Pending, recType, None)] else recs
  }

  function AmiBackedObsolete(recs: Table, ids: set<string>): Table {
    map k | k in recs ::
      if k.kind == "ebs_snapshot" && k.id in ids && recs[k].status == Pending then recs[k].(status := Obsolete) else recs[k]
  }

  // ----- the transition system ---------------------------------------------------------------------

  datatype Event =
    | Wait(seconds: nat)
    | Configure(dryRun: bool, disabled: set<string>, graceDays: nat, guards: Remediation.Config)
    | Act(action: Action, k: Resource, answers: Answers)
    | GraceTick(due: seq<Resource>, answer: Resource -> Answers)
    | SyncTick(world: AwsSync.World)
    | PrTick(state: Resource -> PrState)
    | Idle(k: Resource, recType: string)
    | Detect(k: Resource, recType: string)
    | AmiBacked(ids: set<string>)

  ghost predicate Enabled(s: State, e: Event) { e.GraceTick? ==> SelectsDue(s, e.due) }

  function Step(s: State, e: Event): State {
    match e
    case Wait(n) => s.(cfg := s.cfg.(now := s.cfg.now + n))
    case Configure(dryRun, disabled, graceDays, guards) => s.(cfg := Settings(s.cfg.now, dryRun, disabled, graceDays, guards))
    case Act(action, k, a) => ActOne(s, action, k, a)
    case GraceTick(due, answer) => GraceRows(s, due, answer)
    case SyncTick(w) => s.(recs := AwsSync.Synced(s.recs, w))
    case PrTick(state) => s.(recs := PrSynced(s.recs, state))
    case Idle(k, recType) => s.(recs := IdleUpsert(s.recs, k, recType))
    case Detect(k, recType) => s.(recs := PlainUpsert(s.recs, k, recType))
    case AmiBacked(ids) => s.(recs := AmiBackedObsolete(s.recs, ids))
  }

  /** A run: it starts with an empty table and takes enabled steps. */
  ghost predicate IsRun(ss: seq<State>, es: seq<Event>) {
    && |ss| == |es| + 1
    && ss[0].recs == map[] && ss[0].writes == []
    && forall i :: 0 <= i < |es| ==> Enabled(ss[i], es[i]) && ss[i+1] == Step(ss[i], es[i])
  }

  predicate HasStatus(s: State, k: Resource, status: Status) { k in s.recs && s.recs[k].status == status }

  // ----- one grace tick, row by row ------------------------------------------------------------------

  /** A tick leaves every row outside its batch alone; a row of the batch goes through exactly one
    * execution from the state the SELECT saw, whatever the rows before it did. */
  lemma {:induction false} TickRowByRow(s: State, due: seq<Resource>, answer: Resource -> Answers, k: Resource)
    requires NoDuplicates(due)
    requires forall i :: 0 <= i < |due| ==> due[i] in s.recs
    ensures var t := GraceRows(s, due, answer);
            && t.cfg == s.cfg && t.recs.Keys == s.recs.Keys
            && (k !in due && k in s.recs ==> t.recs[k] == s.recs[k])
            && (k in due ==> t.recs[k] == GraceRow(s, k, answer(k)).recs[k])
  {
    hide EffectiveMode, Perform, GraceStatus, Wrote;
    if due != [] {
      var before, last := due[..|due|-1], due[|due|-1];
      assert due == before + [last];
      TickRowByRow(s, before, answer, k);
      TickRowByRow(s, before, answer, last);
    }
  }

  /** Row k of the batch attempts an AWS write. */
  predicate Attempts(s: State, k: Resource, answer: Resource -> Answers) {
    k in s.recs && Perform(s.cfg, EffectiveMode(s.cfg, s.recs[k].recType), answer(k)).wrote
  }

  /** The writes a tick attempts, as decided by the state the SELECT saw: at most one per due row. */
  function TickLog(s: State, due: seq<Resource>, answer: Resource -> Answers): seq<Write> {
    if due == [] then []
    else
      var before, k := TickLog(s, due[..|due|-1], answer), due[|due|-1];
      if Attempts(s, k, answer) then before + [Write(k, s.recs[k].recType, Grace, s.cfg.now)] else before
  }

  lemma {:induction false} TickWrites(s: State, due: seq<Resource>, answer: Resource -> Answers)
    requires NoDuplicates(due)
    requires forall i :: 0 <= i < |due| ==> due[i] in s.recs
    ensures GraceRows(s, due, answer).writes == s.writes + TickLog(s, due, answer)
  {
    hide EffectiveMode, Perform, GraceStatus;
    if due != [] {
      var before, last := due[..|due|-1], due[|due|-1];
      TickWrites(s, before, answer);
      TickRowByRow(s, before, answer, last);
    }
  }

  lemma {:induction false} TickLogFacts(s: State, due: seq<Resource>, answer: Resource -> Answers, k: Resource)
    ensures (exists w :: w in TickLog(s, due, answer) && w.resource == k) <==> k in due && Attempts(s, k, answer)
    ensures forall w :: w in TickLog(s, due, answer) ==> w.caller == Grace && w.at == s.cfg.now
  {
    hide EffectiveMode, Perform;
    if due != [] {
      var before, last := due[..|due|-1], due[|due|-1];
      assert due == before + [last];
      TickLogFacts(s, before, answer, k);
      if Attempts(s, last, answer) {
        assert Write(last, s.recs[last].recType, Grace, s.cfg.now) in TickLog(s, due, answer);
      }
      if k in before && Attempts(s, k, answer) {
        var w :| w in TickLog(s, before, answer) && w.resource == k;
        assert w in TickLog(s, due, answer);
      }
    }
  }

  // ----- what single steps do ------------------------------------------------------------------------

  /** A recommendation becomes scheduled only by approving it while pending, under a grace period, out of
    * dry-run, and with its action automated and enabled; its deadline is then the grace period away. */
  lemma BecomesScheduled(s: State, e: Event, k: Resource)
    requires Enabled(s, e) && !HasStatus(s, k, Scheduled) && HasStatus(Step(s, e), k, Scheduled)
    ensures e.Act? && e.action == Approve && e.k == k && HasStatus(s, k, Pending)
    ensures s.cfg.graceDays > 0 && !s.cfg.dryRun && EffectiveMode(s.cfg, s.recs[k].recType) != Manual
    ensures Step(s, e).recs[k] == s.recs[k].(status := Scheduled, executeAfter := Some(s.cfg.now + s.cfg.graceDays * DAY))
  {
    hide EffectiveMode, Perform, AwsSync.SyncResolves;
    if e.GraceTick? {
      TickRowByRow(s, e.due, e.answer, k);
    }
  }

  /** While it stays scheduled nothing about it changes: no step re-arms or moves a deadline. */
  lemma StaysScheduled(s: State, e: Event, k: Resource)
    requires Enabled(s, e) && HasStatus(s, k, Scheduled) && HasStatus(Step(s, e), k, Scheduled)
    ensures Step(s, e).recs[k] == s.recs[k]
  {
    hide EffectiveMode, Perform, AwsSync.SyncResolves;
    if e.GraceTick? {
      TickRowByRow(s, e.due, e.answer, k);
    }
  }

  /** The clock never goes back, and nothing removes a recommendation or a recorded write. */
  lemma NothingIsLost(s: State, e: Event)
    requires Enabled(s, e)
    ensures s.cfg.now <= Step(s, e).cfg.now && s.recs.Keys <= Step(s, e).recs.Keys && s.writes <= Step(s, e).writes
  {
    hide EffectiveMode, Perform, AwsSync.SyncResolves;
    if e.GraceTick? {
      TickWrites(s, e.due, e.answer);
      TickKeys(s, e.due, e.answer);
    }
  }

  lemma {:induction false} TickKeys(s: State, due: seq<Resource>, answer: Resource -> Answers)
    ensures GraceRows(s, due, answer).cfg == s.cfg && GraceRows(s, due, answer).recs.Keys == s.recs.Keys
  {
    if due != [] { TickKeys(s, due[..|due|-1], answer); }
  }

  // ----- scheduled executions over whole runs ----------------------------------------------------------

  /** Step n of the run schedules k. */
  predicate Schedules(s: State, e: Event, k: Resource) {
    && e.Act? && e.action == Approve && e.k == k && HasStatus(s, k, Pending)
    && s.cfg.graceDays > 0 && !s.cfg.dryRun && EffectiveMode(s.cfg, s.recs[k].recType) != Manual
  }

  /** Behind every scheduled recommendation there is the approval that scheduled it; since then it has been
    * scheduled throughout, unchanged: not cancelled, not resolved by a sync, not executed. */
  lemma {:induction false} SchedulingOf(ss: seq<State>, es: seq<Event>, n: nat, k: Resource) returns (j: nat)
    requires IsRun(ss, es) && n <= |es| && HasStatus(ss[n], k, Scheduled)
    ensures j < n && Schedules(ss[j], es[j], k)
    ensures forall i :: j < i <= n ==> HasStatus(ss[i], k, Scheduled) && ss[i].recs[k] == ss[n].recs[k]
    ensures ss[n].recs[k].executeAfter == Some(ss[j].cfg.now + ss[j].cfg.graceDays * DAY)
    ensures ss[n].recs[k].recType == ss[j].recs[k].recType
  {
    hide EffectiveMode, Step;
    assert ss[n] == Step(ss[n-1], es[n-1]) && Enabled(ss[n-1], es[n-1]);
    if HasStatus(ss[n-1], k, Scheduled) {
      StaysScheduled(ss[n-1], es[n-1], k);
      j := SchedulingOf(ss, es, n - 1, k);
    } else {
      BecomesScheduled(ss[n-1], es[n-1], k);
      j := n - 1;
    }
  }

  /** Step n attempts the AWS write of k from the grace executor. */
  predicate GraceAttempt(s: State, e: Event, k: Resource) {
    e.GraceTick? && k in e.due && Attempts(s, k, e.answer)
  }

  /** Only an enabled automated action out of dry-run attempts a write. */
  lemma AttemptsAreReal(c: Settings, mode: Mode, a: Answers)
    ensures Perform(c, mode, a).wrote ==> !c.dryRun && mode != Manual
  {
  }

  /** Every attempt of the grace executor was earned: it goes back to an approval, comes no earlier than the
    * grace days then in force, finds the recommendation scheduled without interruption since, happens out
    * of dry-run with the action enabled, and uses the scheduling up. */
  lemma GraceAttemptIsEarned(ss: seq<State>, es: seq<Event>, n: nat, k: Resource) returns (j: nat)
    requires IsRun(ss, es) && n < |es| && GraceAttempt(ss[n], es[n], k)
    ensures j < n && Schedules(ss[j], es[j], k)
    ensures ss[n].cfg.now >= ss[j].cfg.now + ss[j].cfg.graceDays * DAY
    ensures forall i :: j < i <= n ==> HasStatus(ss[i], k, Scheduled)
    ensures !ss[n].cfg.dryRun && EffectiveMode(ss[n].cfg, ss[n].recs[k].recType) != Manual
    ensures !HasStatus(ss[n+1], k, Scheduled)
  {
    hide EffectiveMode, Perform;
    var s, e := ss[n], es[n];
    assert Enabled(s, e) && ss[n+1] == Step(s, e);
    var i :| 0 <= i < |e.due| && e.due[i] == k;
    assert Due(s, e.due[i]);
    j := SchedulingOf(ss, es, n, k);
    AttemptsAreReal(s.cfg, EffectiveMode(s.cfg, s.recs[k].recType), e.answer(k));
    TickRowByRow(s, e.due, e.answer, k);
  }

  /** At most one attempt per scheduling: between two attempts there is a new approval. */
  lemma AttemptsAreSeparated(ss: seq<State>, es: seq<Event>, n: nat, n': nat, k: Resource) returns (j: nat)
    requires IsRun(ss, es) && n < n' < |es|
    requires GraceAttempt(ss[n], es[n], k) && GraceAttempt(ss[n'], es[n'], k)
    ensures n < j < n' && Schedules(ss[j], es[j], k)
  {
    hide Schedules, GraceAttempt;
    var j0 := GraceAttemptIsEarned(ss, es, n, k);
    j := GraceAttemptIsEarned(ss, es, n', k);
    assert !(j < n + 1 <= n');
  }

  lemma GrowsByOne(s: State, e: Event, k: Resource, w: Write)
    requires Enabled(s, e) && w in Step(s, e).writes && w !in s.writes
    ensures w.at == s.cfg.now && !s.cfg.dryRun && w.resource in s.recs
    ensures w.recType == s.recs[w.resource].recType && EffectiveMode(s.cfg, w.recType) != Manual
    ensures w.caller == Grace ==> GraceAttempt(s, e, w.resource)
    ensures w.caller == Api ==> e.Act? && e.action == Approve && e.k == w.resource
  {
    hide EffectiveMode, Perform, AwsSync.SyncResolves;
    match e
    case GraceTick(due, answer) =>
      TickWrites(s, due, answer);
      TickLogOrigin(s, due, answer, w);
    case Act(action, k', a) =>
      if k' in s.recs {
        AttemptsAreReal(s.cfg, EffectiveMode(s.cfg, s.recs[k'].recType), a);
      }
    case _ =>
  }

  lemma {:induction false} TickLogOrigin(s: State, due: seq<Resource>, answer: Resource -> Answers, w: Write)
    requires w in TickLog(s, due, answer)
    ensures w.resource in due && Attempts(s, w.resource, answer)
    ensures w == Write(w.resource, s.recs[w.resource].recType, Grace, s.cfg.now)
    ensures !s.cfg.dryRun && EffectiveMode(s.cfg, w.recType) != Manual
  {
    hide EffectiveMode, Perform;
    var before, last := due[..|due|-1], due[|due|-1];
    if w in TickLog(s, before, answer) {
      TickLogOrigin(s, before, answer, w);
    } else {
      AttemptsAreReal(s.cfg, EffectiveMode(s.cfg, s.recs[last].recType), answer(last));
    }
  }

  /** Every AWS write of a run goes back to a step, out of dry-run, whose action was automated and enabled:
    * an approval or an attempt of the grace executor. */
  lemma {:induction false} WriteHasAnOrigin(ss: seq<State>, es: seq<Event>, n: nat, w: Write) returns (i: nat)
    requires IsRun(ss, es) && n <= |es| && w in ss[n].writes
    ensures i < n && !ss[i].cfg.dryRun && w.at == ss[i].cfg.now
    ensures w.recType !in ss[i].cfg.disabled
    ensures w.recType in {"stop_instance", "terminate_instance", "migrate_gp2_to_gp3", "delete_volume", "delete_nat_gateway",
                          "delete_load_balancer", "release_ip", "delete_snapshot", "deregister_ami"}
    ensures ExecutionMode(w.recType) != Manual
    ensures w.caller == Grace ==> GraceAttempt(ss[i], es[i], w.resource)
    ensures w.caller == Api ==> es[i].Act? && es[i].action == Approve && es[i].k == w.resource
  {
    hide Step, GraceAttempt;
    assert ss[n] == Step(ss[n-1], es[n-1]) && Enabled(ss[n-1], es[n-1]);
    if w in ss[n-1].writes {
      i := WriteHasAnOrigin(ss, es, n - 1, w);
    } else {
      i := n - 1;
      GrowsByOne(ss[i], es[i], w.resource, w);
    }
  }

  // ----- dry-run -----------------------------------------------------------------------------------------

  const ACTED_ON := {Scheduled, PrOpen, Approved, Applied}

  /** Under dry-run an approval or a grace tick writes nothing and moves no recommendation into a status
    * that says something was done or will be. */
  lemma DryRunActsOnNothing(s: State, e: Event, k: Resource)
    requires Enabled(s, e) && s.cfg.dryRun && (e.Act? || e.GraceTick?) && k in s.recs
    ensures Step(s, e).writes == s.writes && k in Step(s, e).recs
    ensures Step(s, e).recs[k].status in ACTED_ON ==> s.recs[k].status == Step(s, e).recs[k].status
  {
    match e
    case GraceTick(due, answer) => DryRunTick(s, due, answer, k);
    case Act(action, k', a) => DryRunAction(s, action, k', a, k);
  }

  lemma DryRunAction(s: State, action: Action, k': Resource, a: Answers, k: Resource)
    requires s.cfg.dryRun && k in s.recs
    ensures var t := ActOne(s, action, k', a);
            t.writes == s.writes && k in t.recs && (t.recs[k].status in ACTED_ON ==> s.recs[k].status == t.recs[k].status)
  {
    hide EffectiveMode, Perform;
    if k' in s.recs {
      AttemptsAreReal(s.cfg, EffectiveMode(s.cfg, s.recs[k'].recType), a);
    }
  }

  lemma DryRunTick(s: State, due: seq<Resource>, answer: Resource -> Answers, k: Resource)
    requires s.cfg.dryRun && SelectsDue(s, due) && k in s.recs
    ensures var t := GraceRows(s, due, answer);
            t.writes == s.writes && k in t.recs && (t.recs[k].status in ACTED_ON ==> s.recs[k].status == t.recs[k].status)
  {
    hide EffectiveMode, Perform;
    assert forall i :: 0 <= i < |due| ==> Due(s, due[i]);
    TickWrites(s, due, answer);
    TickRowByRow(s, due, answer, k);
    if TickLog(s, due, answer) != [] {
      TickLogOrigin(s, due, answer, TickLog(s, due, answer)[0]);
    }
  }

  lemma DryRunRunWritesNothing(ss: seq<State>, es: seq<Event>, n: nat)
    requires IsRun(ss, es) && n <= |es|
    requires forall i :: 0 <= i < n ==> ss[i].cfg.dryRun
    ensures ss[n].writes == []
  {
    if ss[n].writes != [] {
      var i := WriteHasAnOrigin(ss, es, n, ss[n].writes[0]);
    }
  }

  // ----- what the background may change ------------------------------------------------------------------

  predicate Background(e: Event) { !e.Act? && !e.Configure? }

  /** No detector, sync, grace or PR-sync step changes a dismissed, applied or approved recommendation. */
  lemma BackgroundKeepsResolved(s: State, e: Event, k: Resource)
    requires Enabled(s, e) && Background(e) && k in s.recs && s.recs[k].status in {Dismissed, Applied, Approved}
    ensures k in Step(s, e).recs && Step(s, e).recs[k] == s.recs[k]
  {
    hide EffectiveMode, Perform;
    if e.GraceTick? {
      assert forall i :: 0 <= i < |e.due| ==> Due(s, e.due[i]);
      TickRowByRow(s, e.due, e.answer, k);
    }
  }

  /** So between two API actions on it, such a recommendation stays what it is for the whole run. */
  lemma {:induction false} ResolvedUntilTheNextAction(ss: seq<State>, es: seq<Event>, i: nat, n: nat, k: Resource)
    requires IsRun(ss, es) && i <= n <= |es|
    requires k in ss[i].recs && ss[i].recs[k].status in {Dismissed, Applied, Approved}
    requires forall m :: i <= m < n ==> !(es[m].Act? && es[m].k == k)
    ensures k in ss[n].recs && ss[n].recs[k] == ss[i].recs[k]
  {
    hide Step;
    if i < n {
      ResolvedUntilTheNextAction(ss, es, i, n - 1, k);
      assert ss[n] == Step(ss[n-1], es[n-1]) && Enabled(ss[n-1], es[n-1]);
      if Background(es[n-1]) {
        BackgroundKeepsResolved(ss[n-1], es[n-1], k);
      } else {
        OtherActions(ss[n-1], es[n-1], k);
      }
    }
  }

  /** Actions on other recommendations and settings do not concern k. */
  lemma OtherActions(s: State, e: Event, k: Resource)
    requires k in s.recs && !Background(e) && !(e.Act? && e.k == k)
    ensures k in Step(s, e).recs && Step(s, e).recs[k] == s.recs[k]
  {
    hide EffectiveMode, Perform;
  }

  /** A detector changes a status only to revive an obsolete recommendation (idle instances) or to drop a
    * pending one (AMI-backed snapshots), does both whenever it can, and touches nothing in another status; what
    * it finds for the first time becomes pending. */
  lemma DetectorsChangeLittle(s: State, e: Event, k: Resource)
    requires e.Idle? || e.Detect? || e.AmiBacked?
    ensures var t := Step(s, e);
            && t.writes == s.writes && t.cfg == s.cfg
            && (k in s.recs ==> k in t.recs)
            && (k in s.recs ==>
                  t.recs[k] ==
                    if e.Idle? && e.k == k && s.recs[k].status in {Pending, Obsolete}
                    then Rec(Pending, e.recType, s.recs[k].executeAfter)
                    else if e.AmiBacked? && k.kind == "ebs_snapshot" && k.id in e.ids && s.recs[k].status == Pending
                    then Rec(Obsolete, s.recs[k].recType, s.recs[k].executeAfter)
                    else s.recs[k])
            && (k !in s.recs ==> (k in t.recs <==> !e.AmiBacked? && e.k == k))
            && (k !in s.recs && k in t.recs ==> t.recs[k] == Rec(Pending, e.recType, None))
  {
  }

  /** A sync changes only open recommendations, to applied exactly when a human had marked them to do. */
  lemma SyncResolvesOpenOnly(s: State, w: AwsSync.World, k: Resource)
    requires k in s.recs
    ensures var before, after := s.recs[k].status, Step(s, SyncTick(w)).recs[k].status;
            after != before ==> before in SYNCABLE && (after == Applied <==> before == ApprovedManual)
                                && (after == Obsolete <==> before != ApprovedManual)
  {
  }

  // ----- progress of the grace executor --------------------------------------------------------------------

  /** A tick executes every due recommendation of its batch, and leaves one waiting only when twenty others
    * with deadlines no later were executed. */
  lemma DueIsExecutedOrOutranked(s: State, due: seq<Resource>, answer: Resource -> Answers, k: Resource)
    requires SelectsDue(s, due) && Due(s, k)
    ensures var t := Step(s, GraceTick(due, answer));
            k in t.recs &&
            if k in due then t.recs[k].status in {Approved, Obsolete, Pending} && t.recs[k].executeAfter == None
            else t.recs[k] == s.recs[k] && |due| == 20
                 && forall i :: 0 <= i < |due| ==> s.recs[due[i]].executeAfter.value <= s.recs[k].executeAfter.value
  {
    hide EffectiveMode, Perform;
    assert forall i :: 0 <= i < |due| ==> Due(s, due[i]);
    TickRowByRow(s, due, answer, k);
  }

  /** What a tick makes of a row of its batch: approved iff its execution succeeded, out of dry-run and in an
    * automated mode; obsolete iff it failed because the resource is gone; otherwise a human decides again. */
  lemma GraceOutcome(s: State, due: seq<Resource>, answer: Resource -> Answers, k: Resource)
    requires SelectsDue(s, due) && k in due
    ensures var t := Step(s, GraceTick(due, answer));
            k in s.recs && k in t.recs &&
            var mode := EffectiveMode(s.cfg, s.recs[k].recType);
            var d := Perform(s.cfg, mode, answer(k));
            && s.recs[k].status == Scheduled && s.recs[k].executeAfter.Some? && s.recs[k].executeAfter.value <= s.cfg.now
            && (t.recs[k].status == Approved <==> d.success && !s.cfg.dryRun && mode != Manual)
            && (t.recs[k].status == Obsolete <==> !d.success && d.saysNotFound)
            && (t.recs[k].status == Pending <==> (d.success && (s.cfg.dryRun || mode == Manual)) || (!d.success && !d.saysNotFound))
            && t.recs[k].recType == s.recs[k].recType && t.recs[k].executeAfter == None
  {
    hide EffectiveMode, Perform;
    assert forall i :: 0 <= i < |due| ==> Due(s, due[i]);
    TickRowByRow(s, due, answer, k);
  }

  // ----- where statuses come from --------------------------------------------------------------------------

  /** The step makes k approved: a tick executes it with success, a boto3 approval succeeds at once, or its pull
    * request is merged. */
  ghost predicate Succeeded(s: State, e: Event, k: Resource) {
    && k in s.recs
    && var mode := EffectiveMode(s.cfg, s.recs[k].recType);
       match e
       case GraceTick(due, answer) => k in due && !s.cfg.dryRun && mode != Manual && Perform(s.cfg, mode, answer(k)).success
       case Act(action, k', a) =>
         action == Approve && k' == k && !s.cfg.dryRun && mode == Boto3 && a.pr == NotRouted && Perform(s.cfg, mode, a).success
       case PrTick(state) => s.recs[k].status == PrOpen && state(k) == Merged
       case _ => false
  }

  lemma BecomesApproved(s: State, e: Event, k: Resource)
    requires Enabled(s, e) && !HasStatus(s, k, Approved) && HasStatus(Step(s, e), k, Approved)
    ensures Succeeded(s, e, k)
  {
    if e.GraceTick? {
      BecomesApprovedByTick(s, e.due, e.answer, k);
    } else if e.Act? {
      BecomesApprovedByAction(s, e, k);
    } else {
      hide AwsSync.SyncResolves, EffectiveMode, Perform;
    }
  }

  lemma BecomesApprovedByTick(s: State, due: seq<Resource>, answer: Resource -> Answers, k: Resource)
    requires SelectsDue(s, due) && !HasStatus(s, k, Approved) && HasStatus(Step(s, GraceTick(due, answer)), k, Approved)
    ensures Succeeded(s, GraceTick(due, answer), k)
  {
    assert forall i :: 0 <= i < |due| ==> Due(s, due[i]);
    TickRowByRow(s, due, answer, k);
    TickKeys(s, due, answer);
    if k in due { GraceOutcome(s, due, answer, k); }
    hide EffectiveMode, Perform, GraceRows, GraceRow, SelectsDue;
  }

  lemma BecomesApprovedByAction(s: State, e: Event, k: Resource)
    requires e.Act? && !HasStatus(s, k, Approved) && HasStatus(Step(s, e), k, Approved)
    ensures Succeeded(s, e, k)
  {
    hide EffectiveMode, Perform;
    if e.action == Approve && e.k in s.recs {
      ApprovalOutcome(s, e.k, e.answers);
      hide ApproveOne;
    }
  }

  /** In every run an approved recommendation goes back to a successful execution or a merged pull request. */
  lemma {:induction false} ApprovedGoesBack(ss: seq<State>, es: seq<Event>, n: nat, k: Resource) returns (j: nat)
    requires IsRun(ss, es) && n <= |es| && HasStatus(ss[n], k, Approved)
    ensures j < n && Succeeded(ss[j], es[j], k)
    ensures forall i :: j < i <= n ==> HasStatus(ss[i], k, Approved)
  {
    hide Step, Succeeded;
    assert ss[n] == Step(ss[n-1], es[n-1]) && Enabled(ss[n-1], es[n-1]);
    if HasStatus(ss[n-1], k, Approved) {
      j := ApprovedGoesBack(ss, es, n - 1, k);
    } else {
      BecomesApproved(ss[n-1], es[n-1], k);
      j := n - 1;
    }
  }

  /** The step makes k applied: a remediator approved at once succeeds, or a sync finds done what a human had
    * marked to do. */
  ghost predicate Settles(s: State, e: Event, k: Resource) {
    && k in s.recs
    && var mode := EffectiveMode(s.cfg, s.recs[k].recType);
       match e
       case Act(action, k', a) =>
         action == Approve && k' == k && !s.cfg.dryRun && mode == Remediator && a.pr == NotRouted && Perform(s.cfg, mode, a).success
       case SyncTick(w) => s.recs[k].status == ApprovedManual
       case _ => false
  }

  lemma BecomesApplied(s: State, e: Event, k: Resource)
    requires Enabled(s, e) && !HasStatus(s, k, Applied) && HasStatus(Step(s, e), k, Applied)
    ensures Settles(s, e, k)
  {
    if e.GraceTick? {
      TickAppliesNothing(s, e.due, e.answer, k);
    } else if e.Act? {
      BecomesAppliedByAction(s, e, k);
    } else {
      hide AwsSync.SyncResolves, EffectiveMode, Perform;
    }
  }

  lemma TickAppliesNothing(s: State, due: seq<Resource>, answer: Resource -> Answers, k: Resource)
    requires SelectsDue(s, due) && !HasStatus(s, k, Applied)
    ensures !HasStatus(Step(s, GraceTick(due, answer)), k, Applied)
  {
    assert forall i :: 0 <= i < |due| ==> Due(s, due[i]);
    TickRowByRow(s, due, answer, k);
    TickKeys(s, due, answer);
    if k in due { GraceOutcome(s, due, answer, k); }
    hide EffectiveMode, Perform, GraceRows, GraceRow, SelectsDue;
  }

  lemma BecomesAppliedByAction(s: State, e: Event, k: Resource)
    requires e.Act? && !HasStatus(s, k, Applied) && HasStatus(Step(s, e), k, Applied)
    ensures Settles(s, e, k)
  {
    hide EffectiveMode, Perform;
    if e.action == Approve && e.k in s.recs {
      ApprovalOutcome(s, e.k, e.answers);
      hide ApproveOne;
    }
  }

  /** In every run an applied recommendation goes back to such a step. */
  lemma {:induction false} AppliedGoesBack(ss: seq<State>, es: seq<Event>, n: nat, k: Resource) returns (j: nat)
    requires IsRun(ss, es) && n <= |es| && HasStatus(ss[n], k, Applied)
    ensures j < n && Settles(ss[j], es[j], k)
    ensures forall i :: j < i <= n ==> HasStatus(ss[i], k, Applied)
  {
    hide Step, Settles;
    assert ss[n] == Step(ss[n-1], es[n-1]) && Enabled(ss[n-1], es[n-1]);
    if HasStatus(ss[n-1], k, Applied) {
      j := AppliedGoesBack(ss, es, n - 1, k);
    } else {
      BecomesApplied(ss[n-1], es[n-1], k);
      j := n - 1;
    }
  }

  // ----- the operations on the database ----------------------------------------------------------------------

  class Store {
    var recs: Table
    var writes: seq<Write>

    constructor ()
      ensures recs == map[] && writes == []
    {
      recs, writes := map[], [];
    }

    function At(c: Settings): State
      reads this
    {
      State(c, recs, writes)
    }

    /** One request to /api/actions: the ids in turn, each seeing what the ones before it did. */
    method ApiActions(c: Settings, action: Action, ks: seq<Resource>, answers: seq<Answers>)
      requires |answers| == |ks|
      modifies this
      ensures At(c) == ActAll(old(At(c)), action, ks, answers)
    {
      hide ActOne;
      for i := 0 to |ks|
        invariant At(c) == ActAll(old(At(c)), action, ks[..i], answers[..i])
      {
        assert ks[..i+1][..i] == ks[..i] && answers[..i+1][..i] == answers[..i];
        ghost var before := At(c);
        ApiAction(c, action, ks[i], answers[i]);
      }
      assert ks[..|ks|] == ks && answers[..|answers|] == answers;
    }

    /** One id of a request: no other recommendation changes, only an approval writes, and every other action
      * moves its recommendation from the statuses it is meant for and from no other. */
    method ApiAction(c: Settings, action: Action, k: Resource, a: Answers)
      modifies this
      ensures At(c) == ActOne(old(At(c)), action, k, a)
      ensures recs.Keys == old(recs).Keys && forall other :: other in recs && other != k ==> recs[other] == old(recs)[other]
      ensures action != Approve ==> writes == old(writes)
      ensures k in recs && action != Approve ==>
                var before, after := old(recs)[k].status, recs[k].status;
                var from := if action == Cancel then {Scheduled} else if action == Restore then {Rejected} else {Pending, ApprovedManual};
                && (before !in from ==> recs[k] == old(recs)[k])
                && (before in from ==> after == if action == Reject then Rejected else if action == Dismiss then Dismissed else Pending)
                && (action == Cancel && before in from ==> recs[k].executeAfter == None)
    {
      hide EffectiveMode, Perform;
      if k !in recs { return; }
      var r := recs[k];
      match action
      case Reject =>
        if r.status in {Pending, ApprovedManual} { recs := recs[k := r.(status := Rejected)]; }
      case Dismiss =>
        if r.status in {Pending, ApprovedManual} { recs := recs[k := r.(status := Dismissed)]; }
      case Cancel =>
        if r.status == Scheduled { recs := recs[k := r.(status := Pending, executeAfter := None)]; }
      case Restore =>
        if r.status == Rejected { recs := recs[k := r.(status := Pending)]; }
      case Approve =>
        ApproveRec(c, k, a);
    }

    /** An approval writes iff it is not a matter for a pull request, no grace period applies, and the execution
      * attempts a write; under dry-run it never does, and at most records the decision.  It schedules pending
      * recommendations only, and no refused approval changes anything. */
    method ApproveRec(c: Settings, k: Resource, a: Answers)
      requires k in recs
      modifies this
      ensures At(c) == ApproveOne(old(At(c)), k, a)
      ensures recs.Keys == old(recs).Keys && forall other :: other in recs && other != k ==> recs[other] == old(recs)[other]
      ensures writes == old(writes) +
                if a.pr == NotRouted && c.graceDays == 0 && Perform(c, EffectiveMode(c, recs[k].recType), a).wrote
                then [Write(k, recs[k].recType, Api, c.now)] else []
      ensures c.dryRun ==> writes == old(writes) && (recs[k] == old(recs)[k] || recs[k] == old(recs)[k].(status := ApprovedManual))
      ensures recs[k].status == Scheduled && recs[k] != old(recs)[k] ==>
                old(recs)[k].status == Pending && recs[k].executeAfter == Some(c.now + c.graceDays * DAY) && c.graceDays > 0
      ensures a.pr == Unsafe ==> recs == old(recs)
    {
      hide Perform, EffectiveMode;
      var r := recs[k];
      AttemptsAreReal(c, EffectiveMode(c, r.recType), a);
      if a.pr == Unsafe { return; }
      if a.pr == Proposal {
        if !c.dryRun { recs := recs[k := r.(status := PrOpen)]; }
        return;
      }
      var mode := EffectiveMode(c, r.recType);
      if c.graceDays > 0 && !c.dryRun && mode != Manual {
        if r.status == Pending {
          recs := recs[k := r.(status := Scheduled, executeAfter := Some(c.now + c.graceDays * DAY))];
        }
        return;
      }
      var d := Perform(c, mode, a);
      if d.wrote { writes := writes + [Write(k, r.recType, Api, c.now)]; }
      match mode
      case Remediator =>
        if d.success && !c.dryRun { recs := recs[k := r.(status := Applied)]; }
      case Manual =>
        recs := recs[k := r.(status := ApprovedManual)];
      case Boto3 =>
        if !c.dryRun { recs := recs[k := r.(status := if d.success then Approved else Pending)]; }
    }

    /** One tick of the grace executor over the selected rows. */
    method GraceExecutor(c: Settings, due: seq<Resource>, answer: Resource -> Answers)
      modifies this
      ensures At(c) == GraceRows(old(At(c)), due, answer)
    {
      hide EffectiveMode, Perform, GraceStatus;
      for i := 0 to |due|
        invariant At(c) == GraceRows(old(At(c)), due[..i], answer)
      {
        assert due[..i+1][..i] == due[..i];
        var k := due[i];
        if k in recs {
          var r := recs[k];
          var mode := EffectiveMode(c, r.recType);
          var d := Perform(c, mode, answer(k));
          if d.wrote { writes := writes + [Write(k, r.recType, Grace, c.now)]; }
          recs := recs[k := r.(status := GraceStatus(d, c.dryRun, mode), executeAfter := None)];
        }
      }
      assert due[..|due|] == due;
    }

    /** Reconciling open pull requests, one row at a time. */
    method SyncOpenPrs(open: seq<Resource>, state: Resource -> PrState)
      requires forall k :: k in open <==> k in recs && recs[k].status == PrOpen
      modifies this
      ensures recs == PrSynced(old(recs), state) && writes == old(writes)
      ensures recs.Keys == old(recs).Keys
      ensures forall k :: k in recs ==>
                recs[k] == if old(recs)[k].status == PrOpen && state(k) == Merged then old(recs)[k].(status := Approved)
                           else if old(recs)[k].status == PrOpen && state(k) == Closed then old(recs)[k].(status := Rejected)
                           else old(recs)[k]
    {
      ghost var before := recs;
      for i := 0 to |open|
        invariant writes == old(writes) && recs.Keys == before.Keys
        invariant forall k :: k in before ==> recs[k] == if k in open[..i] then PrSynced(before, state)[k] else before[k]
      {
        assert open[..i+1] == open[..i] + [open[i]];
        var k := open[i];
        assert k in open;
        if state(k) != StillOpen && recs[k].status == PrOpen {
          recs := recs[k := recs[k].(status := if state(k) == Merged then Approved else Rejected)];
        }
      }
      assert open[..|open|] == open;
    }
  }
}
