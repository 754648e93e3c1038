/** Vocabulary shared by the whole model: the requests the restore program
    sends to the RDS control plane, the replies it can get back, and the
    outcomes its functions return.

    The control plane is not modelled; it is replaced by a scripted oracle
    `replies: nat -> Reply`. The reply to the k-th request of a run (counting
    from 0) is `replies(k)`, so every operation takes the log of requests
    issued so far and returns it extended by the requests it issued. */
module Rds {

  datatype Option<T> = None | Some(value: T)

  /** The RDS fault codes that main.go switches on or compares against, one
      constructor per SDK constant (`rds.ErrCode...`). Every other code the
      control plane may report is `Unlisted`. */
  datatype FaultCode =
    // named by restorePointInTimeRDS
    | DBClusterAlreadyExistsFault
    | DBClusterNotFoundFault
    | DBClusterQuotaExceededFault
    | DBClusterSnapshotNotFoundFault
    | DBSubnetGroupNotFoundFault
    | InsufficientDBClusterCapacityFault
    | InsufficientStorageClusterCapacityFault
    | InvalidDBClusterSnapshotStateFault
    | InvalidDBClusterStateFault
    | InvalidDBSnapshotStateFault
    | InvalidRestoreFault
    | InvalidSubnet
    | InvalidVPCNetworkStateFault
    | KMSKeyNotAccessibleFault
    | OptionGroupNotFoundFault
    | StorageQuotaExceededFault
    | DomainNotFoundFault
    | DBClusterParameterGroupNotFoundFault
    // named only by createRDSInstance
    | DBInstanceAlreadyExistsFault
    | InsufficientDBInstanceCapacityFault
    | DBParameterGroupNotFoundFault
    | DBSecurityGroupNotFoundFault
    | InstanceQuotaExceededFault
    | DBSubnetGroupDoesNotCoverEnoughAZs
    | ProvisionedIopsNotAvailableInAZFault
    | StorageTypeNotSupportedFault
    | AuthorizationNotFoundFault
    | BackupPolicyNotFoundFault
    // named only by deleteRDSInstance, deleteRDSCluster and the existence checks
    | DBInstanceNotFoundFault
    | InvalidDBInstanceStateFault
    | DBSnapshotAlreadyExistsFault
    | SnapshotQuotaExceededFault
    | DBInstanceAutomatedBackupQuotaExceededFault
    | DBClusterSnapshotAlreadyExistsFault
    // any code main.go does not name
    | Unlisted(code: string)

  /** The reply of the control plane to one request. */
  datatype Reply =
    /** The call succeeded. For a describe call, `status` is the status of the
        first resource in the response; other calls ignore it. */
    | Accepted(status: string)
    /** The call failed with an `awserr.Error` carrying a fault code. */
    | AwsFault(code: FaultCode)
    /** The call failed with an error that is not an `awserr.Error`. */
    | NonAwsError

  /** A point in time as produced by parsing an RFC 3339 timestamp. */
  datatype Instant = Instant(unixNanos: int)

  datatype Tag = Tag(key: string, value: string)

  /** The fields of `RestoreDBClusterToPointInTimeInput` the program sets. */
  datatype RestoreInput = RestoreInput(
    dbClusterIdentifier: string,
    useLatestRestorableTime: bool,
    restoreToTime: Option<Instant>,
    dbSubnetGroupName: string,
    sourceDBClusterIdentifier: string,
    vpcSecurityGroupIds: seq<string>,
    tags: seq<Tag>)

  /** The fields of `CreateDBInstanceInput` the program sets. */
  datatype CreateInput = CreateInput(
    dbClusterIdentifier: string,
    dbInstanceIdentifier: string,
    dbInstanceClass: string,
    engine: string)

  /** One call into the control plane, with the arguments it carries. */
  datatype Request =
    | DescribeInstances(instanceId: string)
    | DescribeClusters(clusterId: string)
    | DeleteInstance(instanceId: string, skipFinalSnapshot: bool)
    | DeleteCluster(clusterId: string, skipFinalSnapshot: bool)
    | RestoreToPointInTime(restore: RestoreInput)
    | CreateInstance(create: CreateInput)

  /** Why a function of the program returned a non-nil error. */
  datatype Cause =
    | Fault(code: FaultCode)   // the control plane reported this fault code
    | Transport                // a call failed with a non-AWS error
    | AttemptsExhausted        // a wait loop ran out of attempts
    | TimeFormat               // the restore time is not an RFC 3339 timestamp

  /** What a function of the program ends with: a nil error, a non-nil error,
      or a Go panic. */
  datatype Outcome = Ok | Err(cause: Cause) | Panic

  /** The error a non-nil reply becomes in every function that treats all
      failures alike: the fault code, or a transport error. */
  function FailureOf(reply: Reply): (o: Outcome)
    requires !reply.Accepted?
    ensures reply.AwsFault? ==> o == Err(Fault(reply.code))
    ensures reply.NonAwsError? ==> o == Err(Transport)
  {
    if reply.AwsFault? then Err(Fault(reply.code)) else Err(Transport)
  }

  /** The string-keyed parameter map that main builds and every function reads. */
  type Params = map<string, string>

  /** Go's map index: a missing key reads as the empty string. */
  function Lookup(p: Params, key: string): (v: string)
    ensures key !in p ==> v == ""
    ensures key in p ==> v == p[key]
  {
    if key in p then p[key] else ""
  }

  /** Wait loops make at most this many describe calls ... */
  const MaxWaitAttempts: nat := 120
  /** ... and sleep this long after every describe that does not end them. */
  const PollIntervalSeconds: nat := 30

  const InstanceSuffix: string := "-0"

  /** The single instance the program manages is named after its cluster. */
  function InstanceName(cluster: string): (r: string)
    ensures |r| == |cluster| + 2
    ensures r[..|cluster|] == cluster && r[|cluster|..] == InstanceSuffix
  {
    cluster + InstanceSuffix
  }

  /** Different clusters never share an instance name, and an instance name
      is never the name of its own cluster. */
  lemma InstanceNameInjective(c1: string, c2: string)
    ensures InstanceName(c1) == InstanceName(c2) <==> c1 == c2
    ensures InstanceName(c1) != c1
  {
    if InstanceName(c1) == InstanceName(c2) {
      calc {
        c1;
        InstanceName(c1)[..|c1|];
        InstanceName(c2)[..|c2|];
        c2;
      }
    }
  }

  /** The destination cluster: `restoreParams["restoreRDS"]`. */
  function ClusterId(p: Params): string {
    Lookup(p, "restoreRDS")
  }

  /** The destination instance: `restoreParams["restoreRDS"] + "-0"`. */
  function InstanceId(p: Params): (id: string)
    ensures id == ClusterId(p) + "-0"
  {
    InstanceName(ClusterId(p))
  }
}
