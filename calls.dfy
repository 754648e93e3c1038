/** The single-call operations: the two existence checks, the two deletes,
    the point-in-time restore and the instance create. Each issues exactly one
    request (the restore none, when its time does not parse) and maps the one
    reply it gets to the (bool and) error the Go function returns. */
module Calls {
  import opened Rds

  /** The result of a call: what the function returns, and the request log
      extended by what it sent. */
  datatype Called = Called(outcome: Outcome, log: seq<Request>)

  /** The result of an existence check: Go's `(dbExists, checkDBExistsErr)`. */
  datatype Checked = Checked(present: bool, outcome: Outcome, log: seq<Request>)

  /** Shared shape of the two existence checks: a successful describe means
      present, the resource's not-found code means absent without error, and
      any other failure means absent with an error. */
  function Exists(request: Request, notFound: FaultCode, replies: nat -> Reply, log: seq<Request>): (r: Checked)
    ensures r.log == log + [request]
    ensures r.present && r.outcome == Ok <==> replies(|log|).Accepted?
    ensures !r.present && r.outcome == Ok <==> replies(|log|) == AwsFault(notFound)
    ensures r.outcome != Ok ==> !r.present && r.outcome.Err?
    ensures r.outcome != Ok ==> r.outcome == FailureOf(replies(|log|))
  {
    var reply := replies(|log|);
    var log' := log + [request];
    match reply
    case Accepted(_) => Checked(true, Ok, log')
    case AwsFault(code) =>
      if code == notFound then Checked(false, Ok, log')
      else Checked(false, Err(Fault(code)), log')
    case NonAwsError => Checked(false, Err(Transport), log')
  }

  /** rdsInstanceExists: describe the destination instance. */
  function RdsInstanceExists(p: Params, replies: nat -> Reply, log: seq<Request>): (r: Checked)
    ensures r.log == log + [DescribeInstances(ClusterId(p) + "-0")]
    ensures r.present && r.outcome == Ok <==> replies(|log|).Accepted?
    ensures !r.present && r.outcome == Ok <==> replies(|log|) == AwsFault(DBInstanceNotFoundFault)
    ensures r.outcome != Ok ==> !r.present && r.outcome == FailureOf(replies(|log|))
  {
    Exists(DescribeInstances(InstanceId(p)), DBInstanceNotFoundFault, replies, log)
  }

  /** rdsClusterExists: describe the destination cluster. */
  function RdsClusterExists(p: Params, replies: nat -> Reply, log: seq<Request>): (r: Checked)
    ensures r.log == log + [DescribeClusters(ClusterId(p))]
    ensures r.present && r.outcome == Ok <==> replies(|log|).Accepted?
    ensures !r.present && r.outcome == Ok <==> replies(|log|) == AwsFault(DBClusterNotFoundFault)
    ensures r.outcome != Ok ==> !r.present && r.outcome == FailureOf(replies(|log|))
  {
    Exists(DescribeClusters(ClusterId(p)), DBClusterNotFoundFault, replies, log)
  }

  /** Shared shape of delete and create: every failure, whatever its code,
      is an error. */
  function Mutate(request: Request, replies: nat -> Reply, log: seq<Request>): (r: Called)
    ensures r.log == log + [request]
    ensures r.outcome == Ok <==> replies(|log|).Accepted?
    ensures r.outcome != Ok ==> r.outcome == FailureOf(replies(|log|))
  {
    var reply := replies(|log|);
    Called(if reply.Accepted? then Ok else FailureOf(reply), log + [request])
  }

  /** deleteRDSInstance: delete the destination instance without a final
      snapshot. An instance that is already gone is an error too. */
  function DeleteRdsInstance(p: Params, replies: nat -> Reply, log: seq<Request>): (r: Called)
    ensures r.log == log + [DeleteInstance(ClusterId(p) + "-0", true)]
    ensures r.outcome == Ok <==> replies(|log|).Accepted?
    ensures replies(|log|) == AwsFault(DBInstanceNotFoundFault) ==> r.outcome == Err(Fault(DBInstanceNotFoundFault))
    ensures r.outcome != Ok ==> r.outcome == FailureOf(replies(|log|))
  {
    Mutate(DeleteInstance(InstanceId(p), true), replies, log)
  }

  /** deleteRDSCluster: delete the destination cluster without a final
      snapshot. A cluster that is already gone is an error too. */
  function DeleteRdsCluster(p: Params, replies: nat -> Reply, log: seq<Request>): (r: Called)
    ensures r.log == log + [DeleteCluster(ClusterId(p), true)]
    ensures r.outcome == Ok <==> replies(|log|).Accepted?
    ensures replies(|log|) == AwsFault(DBClusterNotFoundFault) ==> r.outcome == Err(Fault(DBClusterNotFoundFault))
    ensures r.outcome != Ok ==> r.outcome == FailureOf(replies(|log|))
  {
    Mutate(DeleteCluster(ClusterId(p), true), replies, log)
  }

  /** The create request: the destination cluster, its "-0" instance, and the
      instance class and engine from the parameters. */
  function CreateInputFor(p: Params): CreateInput {
    CreateInput(ClusterId(p), InstanceId(p), Lookup(p, "rdsInstanceType"), Lookup(p, "rdsEngine"))
  }

  /** createRDSInstance: every failure, listed fault code or not, is an error. */
  function CreateRdsInstance(p: Params, replies: nat -> Reply, log: seq<Request>): (r: Called)
    ensures r.log == log + [CreateInstance(CreateInput(ClusterId(p), ClusterId(p) + "-0",
                                                       Lookup(p, "rdsInstanceType"), Lookup(p, "rdsEngine")))]
    ensures r.outcome == Ok <==> replies(|log|).Accepted?
    ensures r.outcome != Ok ==> r.outcome == FailureOf(replies(|log|))
  {
    Mutate(CreateInstance(CreateInputFor(p)), replies, log)
  }

  /** The fault codes restorePointInTimeRDS lists in its switch; each of them
      makes it return an error. */
  predicate RestoreFaultListed(code: FaultCode) {
    match code
    case DBClusterAlreadyExistsFault | DBClusterNotFoundFault | DBClusterQuotaExceededFault
       | DBClusterSnapshotNotFoundFault | DBSubnetGroupNotFoundFault
       | InsufficientDBClusterCapacityFault | InsufficientStorageClusterCapacityFault
       | InvalidDBClusterSnapshotStateFault | InvalidDBClusterStateFault
       | InvalidDBSnapshotStateFault | InvalidRestoreFault | InvalidSubnet
       | InvalidVPCNetworkStateFault | KMSKeyNotAccessibleFault | OptionGroupNotFoundFault
       | StorageQuotaExceededFault | DomainNotFoundFault | DBClusterParameterGroupNotFoundFault
      => true
    case _ => false
  }

  /** How restorePointInTimeRDS classifies the reply to its restore call. A
      listed fault code or a non-AWS error is an error; a fault code outside
      the list reaches the switch's `default`, which only prints, so the
      function goes on to return nil. */
  function RestoreOutcome(reply: Reply): (o: Outcome)
    ensures o != Panic
    ensures o == Ok <==> reply.Accepted? || (reply.AwsFault? && !RestoreFaultListed(reply.code))
    ensures o != Ok ==> o == FailureOf(reply)
  {
    match reply
    case Accepted(_) => Ok
    case AwsFault(code) => if RestoreFaultListed(code) then Err(Fault(code)) else Ok
    case NonAwsError => Err(Transport)
  }

  const ManagedByTag: Tag := Tag("ManagedBy", "Terraform")

  /** The restore request, or None when the explicit restore time does not
      parse. `parseTime` stands for `time.Parse(time.RFC3339, _)`. */
  function RestoreInputFor(p: Params, parseTime: string -> Option<Instant>): Option<RestoreInput> {
    var time := Lookup(p, "restoreFromTime");
    var at: Option<Option<Instant>> :=
      if time == "" then Some(None)
      else match parseTime(time) case None => None case Some(t) => Some(Some(t));
    match at
    case None => None
    case Some(restoreTo) =>
      Some(RestoreInput(ClusterId(p), restoreTo.None?, restoreTo, Lookup(p, "rdsSubnetGroup"),
                        Lookup(p, "sourceRDS"), [Lookup(p, "rdsSecurityGroupId")], [ManagedByTag]))
  }

  /** The restore request: none exactly when an explicit time is given that
      does not parse; the latest restorable time exactly when no time is
      given, and otherwise the parsed time; the destination and source
      clusters, subnet group, security group and tag from the parameters. */
  lemma RestoreRequestFields(p: Params, parseTime: string -> Option<Instant>)
    ensures var b := RestoreInputFor(p, parseTime);
            && (b.None? <==> Lookup(p, "restoreFromTime") != "" && parseTime(Lookup(p, "restoreFromTime")).None?)
            && (b.Some? ==> (b.value.useLatestRestorableTime <==> Lookup(p, "restoreFromTime") == ""))
            && (b.Some? && b.value.useLatestRestorableTime ==> b.value.restoreToTime.None?)
            && (b.Some? && !b.value.useLatestRestorableTime ==>
                  b.value.restoreToTime == parseTime(Lookup(p, "restoreFromTime")))
            && (b.Some? ==>
                  && b.value.dbClusterIdentifier == ClusterId(p)
                  && b.value.sourceDBClusterIdentifier == Lookup(p, "sourceRDS")
                  && b.value.dbSubnetGroupName == Lookup(p, "rdsSubnetGroup")
                  && b.value.vpcSecurityGroupIds == [Lookup(p, "rdsSecurityGroupId")]
                  && b.value.tags == [Tag("ManagedBy", "Terraform")])
  {
  }

  /** restorePointInTimeRDS: a restore time that does not parse is an error
      before any request is sent; otherwise one restore request is sent and
      its reply classified by RestoreOutcome. */
  function RestorePointInTimeRds(p: Params, parseTime: string -> Option<Instant>,
                                 replies: nat -> Reply, log: seq<Request>): (r: Called)
    ensures RestoreInputFor(p, parseTime).None? ==> r == Called(Err(TimeFormat), log)
    ensures RestoreInputFor(p, parseTime).Some? ==>
              r.log == log + [RestoreToPointInTime(RestoreInputFor(p, parseTime).value)]
              && r.outcome == RestoreOutcome(replies(|log|))
  {
    match RestoreInputFor(p, parseTime)
    case None => Called(Err(TimeFormat), log)
    case Some(input) => Called(RestoreOutcome(replies(|log|)), log + [RestoreToPointInTime(input)])
  }

  /** Every listed restore fault and every non-AWS error stops the restore
      with an error naming it; only a fault code outside the list is let
      through as success. */
  lemma RestoreErrorClassification(p: Params, parseTime: string -> Option<Instant>,
                                   replies: nat -> Reply, log: seq<Request>)
    requires RestoreInputFor(p, parseTime).Some?
    ensures var r := RestorePointInTimeRds(p, parseTime, replies, log);
            var reply := replies(|log|);
            && (reply.AwsFault? && RestoreFaultListed(reply.code) ==> r.outcome == Err(Fault(reply.code)))
            && (reply.NonAwsError? ==> r.outcome == Err(Transport))
            && (reply.AwsFault? && !RestoreFaultListed(reply.code) ==> r.outcome == Ok)
  {
  }

  /** The restore never asks for both an explicit time and the latest
      restorable time, and always asks for one of them. */
  lemma RestoreModesExclusive(p: Params, parseTime: string -> Option<Instant>)
    requires RestoreInputFor(p, parseTime).Some?
    ensures var input := RestoreInputFor(p, parseTime).value;
            input.useLatestRestorableTime != input.restoreToTime.Some?
  {
  }
}
