/** What AWS still has: the sweep for vanished resources (ui/utils/aws_sync.py) and the reconciliation
  * of EC2 recommendations with live instance states (ui/jobs.py).  AWS is an oracle that may fail in
  * any region. */
module AwsSync {
  import opened Wrappers
  import opened Recommendations

  /** The resource kinds that have a checker. */
  const CHECKED := {"ec2_instance", "ebs_volume", "elastic_ip", "ebs_snapshot", "nat_gateway", "vpc", "load_balancer"}

  /** The existing ids a region lists for a kind; None when the call raises. */
  type Listing = (string, nat) -> Option<set<string>>

  datatype Group = Group(kind: string, ids: seq<string>)

  predicate AllAnswered(listing: Listing, kind: string, regions: nat) {
    forall r :: 0 <= r < regions ==> listing(kind, r).Some?
  }

  predicate Listed(listing: Listing, kind: string, regions: nat, id: string) {
    exists r :: 0 <= r < regions && listing(kind, r).Some? && id in listing(kind, r).value
  }

  /** The verdict of one sweep: the kind has a checker, every region answered and none lists the id. */
  predicate Vanished(listing: Listing, regions: nat, kind: string, id: string) {
    kind in CHECKED && AllAnswered(listing, kind, regions) && !Listed(listing, kind, regions, id)
  }

  function GoneIds(listing: Listing, regions: nat, kind: string, ids: seq<string>): seq<string> {
    if ids == [] then []
    else
      var before, last := GoneIds(listing, regions, kind, ids[..|ids|-1]), ids[|ids|-1];
      if Vanished(listing, regions, kind, last) then before + [last] else before
  }

  function GoneGroups(listing: Listing, regions: nat, pending: seq<Group>): seq<Group> {
    if pending == [] then []
    else
      var before, last := GoneGroups(listing, regions, pending[..|pending|-1]), pending[|pending|-1];
      var gone := GoneIds(listing, regions, last.kind, last.ids);
      if gone == [] then before else before + [Group(last.kind, gone)]
  }

  predicate Reports(groups: seq<Group>, kind: string, id: string) {
    exists k :: 0 <= k < |groups| && groups[k].kind == kind && id in groups[k].ids
  }

  lemma {:induction false} GoneIdsFacts(listing: Listing, regions: nat, kind: string, ids: seq<string>)
    ensures forall id :: id in GoneIds(listing, regions, kind, ids) <==> id in ids && Vanished(listing, regions, kind, id)
  {
    hide Vanished;
    if ids != [] {
      GoneIdsFacts(listing, regions, kind, ids[..|ids|-1]);
      assert ids == ids[..|ids|-1] + [ids[|ids|-1]];
    }
  }

  /** An id is reported under a kind iff it was asked about and has vanished by the sweep's verdict. */
  lemma {:induction false} ReportedIff(listing: Listing, regions: nat, pending: seq<Group>, kind: string, id: string)
    ensures Reports(GoneGroups(listing, regions, pending), kind, id) <==>
            Reports(pending, kind, id) && Vanished(listing, regions, kind, id)
    ensures var groups := GoneGroups(listing, regions, pending);
            (exists k :: 0 <= k < |groups| && groups[k].kind == kind && id in groups[k].ids) <==>
            && (exists k :: 0 <= k < |pending| && pending[k].kind == kind && id in pending[k].ids)
            && kind in {"ec2_instance", "ebs_volume", "elastic_ip", "ebs_snapshot", "nat_gateway", "vpc", "load_balancer"}
            && forall r :: 0 <= r < regions ==> listing(kind, r).Some? && id !in listing(kind, r).value
  {
    VanishedIs(listing, regions, kind, id);
    hide Vanished;
    if pending != [] {
      var before, last := pending[..|pending|-1], pending[|pending|-1];
      ReportedIff(listing, regions, before, kind, id);
      GoneIdsFacts(listing, regions, last.kind, last.ids);
      ReportsLast(before, last, kind, id);
      assert pending == before + [last];
      var gone := GoneIds(listing, regions, last.kind, last.ids);
      ReportsLast(GoneGroups(listing, regions, before), Group(last.kind, gone), kind, id);
    }
  }

  lemma VanishedIs(listing: Listing, regions: nat, kind: string, id: string)
    ensures Vanished(listing, regions, kind, id) <==>
            && kind in {"ec2_instance", "ebs_volume", "elastic_ip", "ebs_snapshot", "nat_gateway", "vpc", "load_balancer"}
            && forall r :: 0 <= r < regions ==> listing(kind, r).Some? && id !in listing(kind, r).value
  {
    if AllAnswered(listing, kind, regions) && !Listed(listing, kind, regions, id) {
      forall r | 0 <= r < regions ensures listing(kind, r).Some? && id !in listing(kind, r).value {}
    }
  }

  lemma ReportsLast(groups: seq<Group>, g: Group, kind: string, id: string)
    ensures Reports(groups + [g], kind, id) <==> Reports(groups, kind, id) || (g.kind == kind && id in g.ids)
  {
    var all := groups + [g];
    if Reports(groups, kind, id) {
      var k :| 0 <= k < |groups| && groups[k].kind == kind && id in groups[k].ids;
      assert all[k] == groups[k];
    }
    assert all[|groups|] == g;
  }

  method FindVanished(pending: seq<Group>, regions: nat, listing: Listing) returns (vanished: seq<Group>)
    ensures vanished == GoneGroups(listing, regions, pending)
  {
    vanished := [];
    for g := 0 to |pending|
      invariant vanished == GoneGroups(listing, regions, pending[..g])
    {
      assert pending[..g+1][..g] == pending[..g];
      var kind, ids := pending[g].kind, pending[g].ids;
      if ids != [] && kind in CHECKED {
        var existing: set<string> := {};
        var regionsChecked := 0;
        for r := 0 to regions
          invariant regionsChecked <= r
          invariant regionsChecked == r <==> AllAnswered(listing, kind, r)
          invariant forall id :: id in existing <==> Listed(listing, kind, r, id)
        {
          match listing(kind, r)
          case None =>
            assert !AllAnswered(listing, kind, r + 1);
          case Some(found) =>
            existing := existing + found;
            regionsChecked := regionsChecked + 1;
        }
        if regionsChecked == regions {
          var gone: seq<string> := [];
          for i := 0 to |ids|
            invariant gone == GoneIds(listing, regions, kind, ids[..i])
          {
            assert ids[..i+1][..i] == ids[..i];
            if ids[i] !in existing { gone := gone + [ids[i]]; }
          }
          assert ids[..|ids|] == ids;
          if gone != [] {
            vanished := vanished + [Group(kind, gone)];
          }
        } else {
          GoneIdsFacts(listing, regions, kind, ids);
          NothingGone(GoneIds(listing, regions, kind, ids));
        }
      } else {
        GoneIdsFacts(listing, regions, kind, ids);
        NothingGone(GoneIds(listing, regions, kind, ids));
      }
    }
    assert pending[..|pending|] == pending;
  }

  lemma NothingGone(ids: seq<string>)
    ensures ids == [] || exists id :: id in ids
  {
    if ids != [] { assert ids[0] in ids; }
  }

  // ----- EC2 instance states -----------------------------------------------------------------------

  /** The instances a region describes, with their state; None when the call raises. */
  type Instances = nat -> Option<map<string, string>>

  datatype Sweep = Sweep(states: map<string, string>, failed: bool)

  function SweepStates(instances: Instances, regions: nat): Sweep {
    if regions == 0 then Sweep(map[], false)
    else
      var before := SweepStates(instances, regions - 1);
      match instances(regions - 1)
      case None => before.(failed := true)
      case Some(found) => before.(states := before.states + found)
  }

  /** A stop or terminate recommendation whose instance is already there. */
  predicate GoalReached(recType: string, state: string) {
    (recType == "stop_instance" && state in {"stopped", "terminated"}) ||
    (recType == "terminate_instance" && state == "terminated")
  }

  /** What the reconciliation resolves: an open recommendation of one of the ids, whatever its kind, whose
    * instance is absent from a complete sweep or has reached the goal. */
  predicate Settled(key: Resource, r: Rec, ids: seq<string>, sweep: Sweep) {
    && r.status in SYNCABLE && key.id in ids
    && if key.id in sweep.states then GoalReached(r.recType, sweep.states[key.id]) else !sweep.failed
  }

  function SyncedEc2(recs: Table, ids: seq<string>, sweep: Sweep): Table {
    map k | k in recs :: if Settled(k, recs[k], ids, sweep) then Resolved(recs[k]) else recs[k]
  }

  function WithoutVanished(recs: Table, listing: Listing, regions: nat): Table {
    map k | k in recs ::
      if k.kind != EC2 && recs[k].status in SYNCABLE && Vanished(listing, regions, k.kind, k.id)
      then Resolved(recs[k]) else recs[k]
  }

  /** The job's SELECT: the ids of open recommendations, EC2 instances apart. */
  ghost predicate Selects(recs: Table, pending: seq<Group>, ec2Ids: seq<string>) {
    && (forall kind, id :: Reports(pending, kind, id) <==>
          kind != EC2 && Resource(kind, id) in recs && recs[Resource(kind, id)].status in SYNCABLE)
    && (forall id :: id in ec2Ids <==> Resource(EC2, id) in recs && recs[Resource(EC2, id)].status in SYNCABLE)
  }

  datatype World = World(regions: nat, listing: Listing, instances: Instances)

  predicate OpenEc2(recs: Table, id: string) {
    Resource(EC2, id) in recs && recs[Resource(EC2, id)].status in SYNCABLE
  }

  /** The verdict of a whole sync tick on one recommendation. */
  predicate SyncResolves(recs: Table, w: World, k: Resource)
    requires k in recs
  {
    var sweep := SweepStates(w.instances, w.regions);
    && recs[k].status in SYNCABLE
    && ((k.kind != EC2 && Vanished(w.listing, w.regions, k.kind, k.id))
        || (OpenEc2(recs, k.id)
            && if k.id in sweep.states then GoalReached(recs[k].recType, sweep.states[k.id]) else !sweep.failed))
  }

  function Synced(recs: Table, w: World): Table {
    map k | k in recs :: if SyncResolves(recs, w, k) then Resolved(recs[k]) else recs[k]
  }

  class Database {
    var recs: Table

    constructor (recs: Table)
      ensures this.recs == recs
    {
      this.recs := recs;
    }

    /** One kind's vanished ids: their open recommendations become applied when a human had marked them to
      * do, obsolete otherwise. */
    method ResolveVanished(kind: string, ids: seq<string>)
      modifies this
      ensures recs.Keys == old(recs).Keys
      ensures forall k :: k in recs && k.kind == kind && k.id in ids && old(recs)[k].status in SYNCABLE ==>
                && (recs[k].status == Applied <==> old(recs)[k].status == ApprovedManual)
                && (recs[k].status == Obsolete <==> old(recs)[k].status != ApprovedManual)
                && recs[k] == old(recs)[k].(status := recs[k].status)
      ensures forall k :: k in recs && !(k.kind == kind && k.id in ids && old(recs)[k].status in SYNCABLE) ==>
                recs[k] == old(recs)[k]
    {
      recs := map k | k in recs ::
        if k.kind == kind && k.id in ids && recs[k].status in SYNCABLE then Resolved(recs[k]) else recs[k];
    }

    method SyncEc2States(ids: seq<string>, regions: nat, instances: Instances)
      modifies this
      ensures recs == SyncedEc2(old(recs), ids, SweepStates(instances, regions))
    {
      hide GoalReached;
      var awsStates: map<string, string>, regionFailed := map[], false;
      for r := 0 to regions
        invariant Sweep(awsStates, regionFailed) == SweepStates(instances, r)
      {
        match instances(r)
        case None => regionFailed := true;
        case Some(found) => awsStates := awsStates + found;
      }
      ghost var sweep := Sweep(awsStates, regionFailed);
      NoIds(recs, ids[..0], sweep);
      hide SyncedEc2;
      for i := 0 to |ids|
        invariant recs == SyncedEc2(old(recs), ids[..i], sweep)
      {
        var id := ids[i];
        OneMoreId(old(recs), ids, i, sweep);
        if id !in awsStates {
          if !regionFailed {
            recs := map k | k in recs :: if k.id == id && recs[k].status in SYNCABLE then Resolved(recs[k]) else recs[k];
          }
        } else {
          var state := awsStates[id];
          recs := map k | k in recs ::
            if k.id == id && recs[k].status in SYNCABLE && GoalReached(recs[k].recType, state)
            then Resolved(recs[k]) else recs[k];
        }
      }
      assert ids[..|ids|] == ids;
    }

    /** Every reported group in turn. */
    method ResolveAll(vanished: seq<Group>)
      modifies this
      ensures recs.Keys == old(recs).Keys
      ensures forall k :: k in recs ==>
                recs[k] == if old(recs)[k].status in SYNCABLE && Reports(vanished, k.kind, k.id)
                           then Resolved(old(recs)[k]) else old(recs)[k]
    {
      hide Reports;
      ghost var before := recs;
      forall k | k in recs ensures !Reports(vanished[..0], k.kind, k.id) {
        ReportsNone(vanished[..0], k.kind, k.id);
      }
      for g := 0 to |vanished|
        invariant recs.Keys == before.Keys
        invariant forall k :: k in recs ==>
                    recs[k] == if before[k].status in SYNCABLE && Reports(vanished[..g], k.kind, k.id)
                               then Resolved(before[k]) else before[k]
      {
        ghost var mid := recs;
        ResolveVanished(vanished[g].kind, vanished[g].ids);
        assert vanished[..g+1] == vanished[..g] + [vanished[g]];
        forall k | k in recs
          ensures recs[k] == if before[k].status in SYNCABLE && Reports(vanished[..g+1], k.kind, k.id)
                             then Resolved(before[k]) else before[k]
        {
          ReportsLast(vanished[..g], vanished[g], k.kind, k.id);
          assert mid[k] == if before[k].status in SYNCABLE && Reports(vanished[..g], k.kind, k.id)
                           then Resolved(before[k]) else before[k];
        }
      }
      assert vanished[..|vanished|] == vanished;
    }

    method SyncAws(pending: seq<Group>, ec2Ids: seq<string>, w: World)
      requires Selects(recs, pending, ec2Ids)
      modifies this
      ensures recs == Synced(old(recs), w)
    {
      hide Vanished, SweepStates, GoalReached, Reports, Settled, SyncResolves;
      ghost var before := recs;
      var vanished := FindVanished(pending, w.regions, w.listing);
      ResolveAll(vanished);
      forall k | k in before
        ensures Reports(vanished, k.kind, k.id) <==> Reports(pending, k.kind, k.id) && Vanished(w.listing, w.regions, k.kind, k.id)
      {
        ReportedIff(w.listing, w.regions, pending, k.kind, k.id);
      }
      assert recs == WithoutVanished(before, w.listing, w.regions);
      if ec2Ids != [] {
        SyncEc2States(ec2Ids, w.regions, w.instances);
      } else {
        NoIds(recs, ec2Ids, SweepStates(w.instances, w.regions));
      }
      BothSyncs(before, ec2Ids, w);
    }
  }

  lemma ReportsNone(groups: seq<Group>, kind: string, id: string)
    requires groups == []
    ensures !Reports(groups, kind, id)
  {
  }

  lemma NoIds(recs: Table, ids: seq<string>, sweep: Sweep)
    requires ids == []
    ensures SyncedEc2(recs, ids, sweep) == recs
  {
  }

  lemma OneMoreId(recs: Table, ids: seq<string>, i: nat, sweep: Sweep)
    requires i < |ids|
    ensures var now, id := SyncedEc2(recs, ids[..i], sweep), ids[i];
            SyncedEc2(recs, ids[..i+1], sweep) ==
              if id !in sweep.states then
                if sweep.failed then now
                else map k | k in now :: if k.id == id && now[k].status in SYNCABLE then Resolved(now[k]) else now[k]
              else
                map k | k in now :: if k.id == id && now[k].status in SYNCABLE && GoalReached(now[k].recType, sweep.states[id])
                                    then Resolved(now[k]) else now[k]
  {
    hide GoalReached;
    assert ids[..i+1] == ids[..i] + [ids[i]];
  }

  lemma BothSyncs(recs: Table, ec2Ids: seq<string>, w: World)
    requires forall id :: id in ec2Ids <==> OpenEc2(recs, id)
    ensures SyncedEc2(WithoutVanished(recs, w.listing, w.regions), ec2Ids, SweepStates(w.instances, w.regions))
         == Synced(recs, w)
  {
    hide Vanished, SweepStates, GoalReached;
  }

  // ----- what a sync may conclude --------------------------------------------------------------------

  /** A resource that exists in a swept region shows up whenever that region answers. */
  predicate Visible(w: World, k: Resource, home: nat) {
    && home < w.regions
    && (k.kind != EC2 && w.listing(k.kind, home).Some? ==> k.id in w.listing(k.kind, home).value)
    && (k.kind == EC2 && w.instances(home).Some? ==> k.id in w.instances(home).value)
  }

  lemma {:induction false} SweepFacts(instances: Instances, regions: nat, home: nat)
    requires home < regions
    ensures instances(home).None? ==> SweepStates(instances, regions).failed
    ensures instances(home).Some? ==> forall id :: id in instances(home).value ==> id in SweepStates(instances, regions).states
  {
    if home < regions - 1 {
      SweepFacts(instances, regions - 1, home);
    }
  }

  /** The state the last region to list an instance gives it; None when no region that answers lists it. */
  predicate LastSeen(instances: Instances, regions: nat, id: string, state: Option<string>) {
    match state
    case None => forall r :: 0 <= r < regions && instances(r).Some? ==> id !in instances(r).value
    case Some(s) =>
      exists home :: 0 <= home < regions && instances(home).Some? && id in instances(home).value
                     && instances(home).value[id] == s
                     && forall r :: home < r < regions && instances(r).Some? ==> id !in instances(r).value
  }

  lemma {:induction false} SweepSees(instances: Instances, regions: nat, id: string, state: Option<string>)
    requires LastSeen(instances, regions, id, state)
    ensures var sweep := SweepStates(instances, regions);
            && (id in sweep.states <==> state.Some?) && (state.Some? ==> sweep.states[id] == state.value)
            && (sweep.failed <==> exists r :: 0 <= r < regions && instances(r) == None)
  {
    if regions > 0 {
      var last := instances(regions - 1);
      if last.Some? && id in last.value {
        SweepFails(instances, regions - 1);
      } else {
        assert LastSeen(instances, regions - 1, id, state);
        SweepSees(instances, regions - 1, id, state);
      }
    }
  }

  lemma {:induction false} SweepFails(instances: Instances, regions: nat)
    ensures SweepStates(instances, regions).failed <==> exists r :: 0 <= r < regions && instances(r) == None
  {
    if regions > 0 { SweepFails(instances, regions - 1); }
  }

  /** What a tick makes of one recommendation.  It must be open.  An EC2 recommendation under its id must be
    * open too and its instance stopped or terminated as recommended, or missing after every region answered;
    * or it is of another checkable kind and missing after every region answered.  It is then applied if a human
    * had marked it to do, obsolete if not. */
  lemma SyncVerdict(recs: Table, w: World, k: Resource, state: Option<string>)
    requires k in recs && LastSeen(w.instances, w.regions, k.id, state)
    ensures var r, open := recs[k], {Pending, Rejected, Scheduled, PrOpen, ApprovedManual};
            var ec2 := Resource("ec2_instance", k.id) in recs && recs[Resource("ec2_instance", k.id)].status in open;
            var reached :=
              if state.Some? then (r.recType == "stop_instance" && state.value in {"stopped", "terminated"})
                                  || (r.recType == "terminate_instance" && state.value == "terminated")
              else forall h :: 0 <= h < w.regions ==> w.instances(h).Some?;
            var gone :=
              && k.kind in {"ebs_volume", "elastic_ip", "ebs_snapshot", "nat_gateway", "vpc", "load_balancer"}
              && forall h :: 0 <= h < w.regions ==> w.listing(k.kind, h).Some? && k.id !in w.listing(k.kind, h).value;
            Synced(recs, w)[k] ==
              if r.status in open && ((ec2 && reached) || gone)
              then r.(status := if r.status == ApprovedManual then Applied else Obsolete) else r
  {
    SweepSees(w.instances, w.regions, k.id, state);
    VanishedIs(w.listing, w.regions, k.kind, k.id);
    hide Vanished, SweepStates, LastSeen;
  }

  /** A sync resolves the open recommendation of an existing resource iff an EC2 recommendation with the
    * same id is open and either the instance of that id has reached the recommendation's goal, or the
    * resource is not an EC2 instance and no instance of that id exists.  Regions that fail to answer
    * never cause it. */
  lemma ExistingIsResolvedIff(recs: Table, w: World, k: Resource, home: nat)
    requires k in recs && recs[k].status in SYNCABLE && Visible(w, k, home)
    ensures var sweep := SweepStates(w.instances, w.regions);
            SyncResolves(recs, w, k) <==>
              OpenEc2(recs, k.id) &&
              if k.id in sweep.states then GoalReached(recs[k].recType, sweep.states[k.id])
              else k.kind != EC2 && !sweep.failed
  {
    SweepFacts(w.instances, w.regions, home);
    if k.kind != EC2 {
      assert AllAnswered(w.listing, k.kind, w.regions) ==> w.listing(k.kind, home).Some?;
      assert w.listing(k.kind, home).Some? ==> Listed(w.listing, k.kind, w.regions, k.id);
    }
  }

  /** So when ids are not shared with EC2 instances, only a reached goal resolves an existing resource. */
  lemma ExistingSurvives(recs: Table, w: World, k: Resource, home: nat)
    requires k in recs && Visible(w, k, home)
    requires k.kind != EC2 ==> !OpenEc2(recs, k.id)
    ensures Synced(recs, w)[k] == recs[k]
         || (k.kind == EC2 && k.id in SweepStates(w.instances, w.regions).states
             && GoalReached(recs[k].recType, SweepStates(w.instances, w.regions).states[k.id]))
  {
    if recs[k].status in SYNCABLE {
      ExistingIsResolvedIff(recs, w, k, home);
    }
  }

  /** An instance id, which a load balancer may carry as its name. */
  const INSTANCE := "i-0123456789abcdef0"

  /** The shared-id case is real: a load balancer that every region was asked about and that is listed
    * loses its recommendation because an EC2 instance with the same id is gone. */
  lemma SharedIdIsResolved()
    ensures var balancer, instance := Resource("load_balancer", INSTANCE), Resource(EC2, INSTANCE);
            var recs: Table := map[balancer := Rec(Pending, "delete_load_balancer", None),
                                   instance := Rec(Pending, "stop_instance", None)];
            var w := World(1, (kind: string, r: nat) => Some({INSTANCE}), (r: nat) => Some(map[]));
            Visible(w, balancer, 0) && Synced(recs, w)[balancer].status == Obsolete
  {
    var balancer, instance := Resource("load_balancer", INSTANCE), Resource(EC2, INSTANCE);
    var recs: Table := map[balancer := Rec(Pending, "delete_load_balancer", None),
                           instance := Rec(Pending, "stop_instance", None)];
    var w := World(1, (kind: string, r: nat) => Some({INSTANCE}), (r: nat) => Some(map[]));
    ExistingIsResolvedIff(recs, w, balancer, 0);
    assert SweepStates(w.instances, 1).states == map[];
  }
}
