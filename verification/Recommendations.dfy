/** The recommendations table: one row per wasteful resource (sql/init.sql makes waste_detected unique
  * per resource and recommendations unique per waste row), with the columns that drive its life. */
module Recommendations {
  import opened Wrappers

  datatype Resource = Resource(kind: string, id: string)

  datatype Status = Pending | Rejected | Dismissed | Scheduled | PrOpen | ApprovedManual | Approved | Applied | Obsolete

  datatype Rec = Rec(status: Status, recType: string, executeAfter: Option<nat>)

  type Table = map<Resource, Rec>

  const SYNCABLE := {Pending, Rejected, Scheduled, PrOpen, ApprovedManual}

  const EC2 := "ec2_instance"

  /** The resource is gone or the goal reached: a decision a human took is applied, anything else obsolete. */
  function Resolved(r: Rec): Rec {
    r.(status := if r.status == ApprovedManual then Applied else Obsolete)
  }

  // ----- execution modes (ui/utils/action_registry.py) -------------------------------------------

  datatype Mode = Boto3 | Remediator | Manual

  function ExecutionMode(recType: string): Mode {
    if recType in {"stop_instance", "terminate_instance"} then Boto3
    else if recType in {"migrate_gp2_to_gp3", "delete_volume", "delete_nat_gateway", "delete_load_balancer",
                        "release_ip", "delete_snapshot", "deregister_ami"} then Remediator
    else Manual
  }
}
