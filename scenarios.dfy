/** Whole runs of the orchestrator for given reply sequences: the fresh
    restore, the teardown of an existing destination, and the ways a run
    stops early. Each holds for every environment and every reply oracle that
    starts with the replies named in its requires. */
module Scenarios {
  import opened Rds
  import opened Config
  import opened Calls
  import opened Waits
  import opened Orchestrator

  /** The restore request main sends when no restore date is given. */
  function LatestRestore(env: Env): Request {
    RestoreToPointInTime(RestoreInput(env.restoreRDS, true, None, env.rdsSubnetGroup, env.sourceRDS,
                                      [env.rdsSecurityGroupId], [Tag("ManagedBy", "Terraform")]))
  }

  /** The create request main sends. */
  function CreateRequest(env: Env): Request {
    CreateInstance(CreateInput(env.restoreRDS, env.restoreRDS + "-0",
                               OrDefault(env.rdsInstanceType, DefaultInstanceType),
                               OrDefault(env.rdsEngine, DefaultEngine)))
  }

  /** When neither the instance nor the cluster exists, the teardown phases
      only make the two checks. */
  lemma NothingToTearDown(env: Env, parseTime: string -> Option<Instant>, replies: nat -> Reply)
    requires replies(0) == AwsFault(DBInstanceNotFoundFault) && replies(1) == AwsFault(DBClusterNotFoundFault)
    ensures InstancePhase(RestoreParams(env), parseTime, replies)
         == Continue([InstanceCheck], [DescribeInstances(env.restoreRDS + "-0")])
    ensures ClusterPhase(RestoreParams(env), parseTime, replies, [InstanceCheck], [DescribeInstances(env.restoreRDS + "-0")])
         == Continue([InstanceCheck, ClusterCheck], [DescribeInstances(env.restoreRDS + "-0"), DescribeClusters(env.restoreRDS)])
  {
  }

  /** With no restore date, the restore sends LatestRestore and classifies
      its reply. */
  lemma LatestRestoreSent(env: Env, parseTime: string -> Option<Instant>, replies: nat -> Reply, log: seq<Request>)
    requires env.restoreDate == ""
    ensures RestorePointInTimeRds(RestoreParams(env), parseTime, replies, log)
         == Called(RestoreOutcome(replies(|log|)), log + [LatestRestore(env)])
  {
    var p := RestoreParams(env);
    assert Lookup(p, "restoreFromTime") == "";
    assert RestoreInputFor(p, parseTime) == Some(LatestRestore(env).restore);
  }

  /** A restore of the latest restorable time whose reply it takes for
      success lets the provisioning go on to the cluster wait. */
  lemma RestoreGoesOn(env: Env, parseTime: string -> Option<Instant>, replies: nat -> Reply,
                      trace: seq<Step>, log: seq<Request>)
    requires env.restoreDate == "" && RestoreOutcome(replies(|log|)) == Ok
    ensures RunSteps(RestoreParams(env), parseTime, replies, Provisioning, trace, log)
         == RunSteps(RestoreParams(env), parseTime, replies, Provisioning[1..], trace + [Restore],
                     log + [LatestRestore(env)])
  {
    LatestRestoreSent(env, parseTime, replies, log);
    RunStepsGoesOn(RestoreParams(env), parseTime, replies, Provisioning, trace, log);
  }

  /** A cluster available at the first describe lets the provisioning go on
      to the create. */
  lemma ClusterAvailableGoesOn(p: Params, parseTime: string -> Option<Instant>, replies: nat -> Reply,
                               trace: seq<Step>, log: seq<Request>)
    requires replies(|log|) == Accepted("available")
    ensures RunSteps(p, parseTime, replies, Provisioning[1..], trace, log)
         == RunSteps(p, parseTime, replies, Provisioning[2..], trace + [ClusterCreateWait],
                     log + [DescribeClusters(ClusterId(p))])
  {
    assert Poll(ClusterCreated, p, replies, log, 0).log == log + [DescribeClusters(ClusterId(p))];
    RunStepsGoesOn(p, parseTime, replies, Provisioning[1..], trace, log);
  }

  /** An accepted create lets the provisioning go on to the instance wait. */
  lemma CreateGoesOn(env: Env, parseTime: string -> Option<Instant>, replies: nat -> Reply,
                     trace: seq<Step>, log: seq<Request>)
    requires replies(|log|).Accepted?
    ensures RunSteps(RestoreParams(env), parseTime, replies, Provisioning[2..], trace, log)
         == RunSteps(RestoreParams(env), parseTime, replies, Provisioning[3..], trace + [InstanceCreate],
                     log + [CreateRequest(env)])
  {
    assert CreateInputFor(RestoreParams(env)) == CreateRequest(env).create;
    RunStepsGoesOn(RestoreParams(env), parseTime, replies, Provisioning[2..], trace, log);
  }

  /** An instance available at the first describe ends the provisioning. */
  lemma InstanceAvailableEnds(p: Params, parseTime: string -> Option<Instant>, replies: nat -> Reply,
                              trace: seq<Step>, log: seq<Request>)
    requires replies(|log|) == Accepted("available")
    ensures RunSteps(p, parseTime, replies, Provisioning[3..], trace, log)
         == Continue(trace + [InstanceCreateWait], log + [DescribeInstances(InstanceId(p))])
  {
    assert Poll(InstanceCreated, p, replies, log, 0).log == log + [DescribeInstances(InstanceId(p))];
    RunStepsGoesOn(p, parseTime, replies, Provisioning[3..], trace, log);
    assert Provisioning[3..][1..] == [];
  }

  /** With nothing to tear down, a restore of the latest restorable time
      whose reply it takes for success leaves the run to the three
      provisioning steps after the restore. */
  lemma FreshRestore(env: Env, parseTime: string -> Option<Instant>, replies: nat -> Reply)
    requires env.restoreDate == ""
    requires replies(0) == AwsFault(DBInstanceNotFoundFault) && replies(1) == AwsFault(DBClusterNotFoundFault)
    requires RestoreOutcome(replies(2)) == Ok
    ensures RunSpec(env, parseTime, replies)
         == Finish(RunSteps(RestoreParams(env), parseTime, replies, Provisioning[1..],
                            [InstanceCheck, ClusterCheck, Restore],
                            [DescribeInstances(env.restoreRDS + "-0"), DescribeClusters(env.restoreRDS), LatestRestore(env)]))
  {
    var l2 := [DescribeInstances(env.restoreRDS + "-0"), DescribeClusters(env.restoreRDS)];
    var t2 := [InstanceCheck, ClusterCheck];
    NothingToTearDown(env, parseTime, replies);
    RestoreGoesOn(env, parseTime, replies, t2, l2);
    assert t2 + [Restore] == [InstanceCheck, ClusterCheck, Restore];
    assert l2 + [LatestRestore(env)]
        == [DescribeInstances(env.restoreRDS + "-0"), DescribeClusters(env.restoreRDS), LatestRestore(env)];
    RunSpecByPhases(env, parseTime, replies, Continue([InstanceCheck], l2[..1]), Continue(t2, l2),
                    RunSteps(RestoreParams(env), parseTime, replies, Provisioning, t2, l2));
  }

  /** The three provisioning steps after the restore each succeed at once. */
  lemma ProvisionedAtOnce(env: Env, parseTime: string -> Option<Instant>, replies: nat -> Reply,
                          trace: seq<Step>, log: seq<Request>)
    requires replies(|log|) == Accepted("available")
    requires replies(|log| + 1).Accepted? && replies(|log| + 2) == Accepted("available")
    ensures RunSteps(RestoreParams(env), parseTime, replies, Provisioning[1..], trace, log)
         == Continue(trace + Provisioning[1..],
                     log + [DescribeClusters(env.restoreRDS), CreateRequest(env), DescribeInstances(env.restoreRDS + "-0")])
  {
    var p := RestoreParams(env);
    ClusterAvailableGoesOn(p, parseTime, replies, trace, log);
    var l1 := log + [DescribeClusters(env.restoreRDS)];
    CreateGoesOn(env, parseTime, replies, trace + [ClusterCreateWait], l1);
    var l2 := l1 + [CreateRequest(env)];
    InstanceAvailableEnds(p, parseTime, replies, trace + [ClusterCreateWait, InstanceCreate], l2);
    assert trace + [ClusterCreateWait, InstanceCreate] + [InstanceCreateWait] == trace + Provisioning[1..];
    assert l2 + [DescribeInstances(env.restoreRDS + "-0")]
        == log + [DescribeClusters(env.restoreRDS), CreateRequest(env), DescribeInstances(env.restoreRDS + "-0")];
  }

  /** Nothing of the destination exists: both checks report not found, so
      no delete is sent; the restore is accepted, the cluster is available
      at the first describe, the create is accepted and the instance is
      available at the first describe. The run completes after six
      requests. */
  lemma FreshDestination(env: Env, parseTime: string -> Option<Instant>, replies: nat -> Reply)
    requires env.restoreDate == ""
    requires replies(0) == AwsFault(DBInstanceNotFoundFault) && replies(1) == AwsFault(DBClusterNotFoundFault)
    requires replies(2).Accepted? && replies(3) == Accepted("available")
    requires replies(4).Accepted? && replies(5) == Accepted("available")
    ensures RunSpec(env, parseTime, replies)
         == Run([InstanceCheck, ClusterCheck, Restore, ClusterCreateWait, InstanceCreate, InstanceCreateWait],
                Completed,
                [DescribeInstances(env.restoreRDS + "-0"), DescribeClusters(env.restoreRDS), LatestRestore(env),
                 DescribeClusters(env.restoreRDS), CreateRequest(env), DescribeInstances(env.restoreRDS + "-0")])
  {
    var l3 := [DescribeInstances(env.restoreRDS + "-0"), DescribeClusters(env.restoreRDS), LatestRestore(env)];
    var t3 := [InstanceCheck, ClusterCheck, Restore];
    FreshRestore(env, parseTime, replies);
    ProvisionedAtOnce(env, parseTime, replies, t3, l3);
  }

  /** An instance delete wait whose pre-check and first attempt see
      "deleting" and whose second attempt sees not found returns nil after
      one sleep. */
  lemma DeletingThenGone(p: Params, replies: nat -> Reply, log: seq<Request>)
    requires replies(|log|) == Accepted("deleting") && replies(|log| + 1) == Accepted("deleting")
    requires replies(|log| + 2) == AwsFault(DBInstanceNotFoundFault)
    ensures var d := DescribeInstances(InstanceId(p));
            Wait(InstanceDeleted, p, replies, log) == Waited(Ok, log + [d, d, d], 2, 30)
  {
    var d := DescribeInstances(InstanceId(p));
    assert Poll(InstanceDeleted, p, replies, log + [d, d], 1) == Waited(Ok, log + [d, d, d], 2, 30);
  }

  /** An existing instance whose delete is accepted leaves the instance
      phase at its delete wait. */
  lemma InstanceFound(p: Params, parseTime: string -> Option<Instant>, replies: nat -> Reply)
    requires replies(0).Accepted? && replies(1).Accepted?
    ensures var d := DescribeInstances(InstanceId(p));
            InstancePhase(p, parseTime, replies)
            == RunSteps(p, parseTime, replies, [InstanceDeleteWait], [InstanceCheck, InstanceDelete],
                        [d, DeleteInstance(InstanceId(p), true)])
  {
    var d := DescribeInstances(InstanceId(p));
    var check := RdsInstanceExists(p, replies, []);
    assert check == Checked(true, Ok, [d]);
    assert InstancePhase(p, parseTime, replies)
        == RunSteps(p, parseTime, replies, [InstanceDelete, InstanceDeleteWait], [InstanceCheck], [d]);
    assert Exec(p, parseTime, replies, InstanceDelete, [d]) == Called(Ok, [d, DeleteInstance(InstanceId(p), true)]);
    RunStepsGoesOn(p, parseTime, replies, [InstanceDelete, InstanceDeleteWait], [InstanceCheck], [d]);
    assert [InstanceDelete, InstanceDeleteWait][1..] == [InstanceDeleteWait];
    assert [InstanceCheck] + [InstanceDelete] == [InstanceCheck, InstanceDelete];
  }

  /** An existing instance whose delete is accepted and whose delete wait
      sees it "deleting" in the pre-check and at the first attempt, and gone
      at the second, is torn down with five requests. */
  lemma InstanceTornDown(p: Params, parseTime: string -> Option<Instant>, replies: nat -> Reply)
    requires replies(0).Accepted? && replies(1).Accepted?
    requires replies(2) == Accepted("deleting") && replies(3) == Accepted("deleting")
    requires replies(4) == AwsFault(DBInstanceNotFoundFault)
    ensures var d := DescribeInstances(InstanceId(p));
            InstancePhase(p, parseTime, replies)
            == Continue([InstanceCheck, InstanceDelete, InstanceDeleteWait],
                        [d, DeleteInstance(InstanceId(p), true), d, d, d])
  {
    var d := DescribeInstances(InstanceId(p));
    var l2 := [d, DeleteInstance(InstanceId(p), true)];
    InstanceFound(p, parseTime, replies);
    DeletingThenGone(p, replies, l2);
    RunStepsGoesOn(p, parseTime, replies, [InstanceDeleteWait], [InstanceCheck, InstanceDelete], l2);
    assert [InstanceDeleteWait][1..] == [];
    assert l2 + [d, d, d] == [d, DeleteInstance(InstanceId(p), true), d, d, d];
  }

  /** A cluster check that reports not found skips the cluster teardown. */
  lemma ClusterAbsent(p: Params, parseTime: string -> Option<Instant>, replies: nat -> Reply,
                      trace: seq<Step>, log: seq<Request>)
    requires replies(|log|) == AwsFault(DBClusterNotFoundFault)
    ensures ClusterPhase(p, parseTime, replies, trace, log)
         == Continue(trace + [ClusterCheck], log + [DescribeClusters(ClusterId(p))])
  {
  }

  /** The destination instance exists and is deleted; deleting it took the
      cluster with it, so the cluster check reports not found and the cluster
      teardown is skipped. */
  lemma InstanceTakesClusterAlong(env: Env, parseTime: string -> Option<Instant>, replies: nat -> Reply)
    requires replies(0).Accepted? && replies(1).Accepted?
    requires replies(2) == Accepted("deleting") && replies(3) == Accepted("deleting")
    requires replies(4) == AwsFault(DBInstanceNotFoundFault) && replies(5) == AwsFault(DBClusterNotFoundFault)
    ensures var d := DescribeInstances(env.restoreRDS + "-0");
            var l1 := [d, DeleteInstance(env.restoreRDS + "-0", true), d, d, d];
            && InstancePhase(RestoreParams(env), parseTime, replies)
               == Continue([InstanceCheck, InstanceDelete, InstanceDeleteWait], l1)
            && ClusterPhase(RestoreParams(env), parseTime, replies, [InstanceCheck, InstanceDelete, InstanceDeleteWait], l1)
               == Continue([InstanceCheck, InstanceDelete, InstanceDeleteWait, ClusterCheck],
                           l1 + [DescribeClusters(env.restoreRDS)])
  {
    var p := RestoreParams(env);
    InstanceTornDown(p, parseTime, replies);
    var d := DescribeInstances(InstanceId(p));
    ClusterAbsent(p, parseTime, replies, [InstanceCheck, InstanceDelete, InstanceDeleteWait],
                  [d, DeleteInstance(InstanceId(p), true), d, d, d]);
  }

  /** The instance is gone before its delete wait starts: the pre-check's
      not-found ends the run with an error, although the delete succeeded. */
  lemma DeletedBeforeWait(env: Env, parseTime: string -> Option<Instant>, replies: nat -> Reply)
    requires replies(0).Accepted? && replies(1).Accepted? && replies(2) == AwsFault(DBInstanceNotFoundFault)
    ensures var d := DescribeInstances(env.restoreRDS + "-0");
            RunSpec(env, parseTime, replies)
            == Run([InstanceCheck, InstanceDelete, InstanceDeleteWait],
                   Halted(InstanceDeleteWait, Fault(DBInstanceNotFoundFault)),
                   [d, DeleteInstance(env.restoreRDS + "-0", true), d])
  {
    var p := RestoreParams(env);
    var d := DescribeInstances(InstanceId(p));
    var l2 := [d, DeleteInstance(InstanceId(p), true)];
    InstanceFound(p, parseTime, replies);
    RunStepsStops(p, parseTime, replies, [InstanceDeleteWait], [InstanceCheck, InstanceDelete], l2);
    var s1 := InstancePhase(p, parseTime, replies);
    RunSpecByPhases(env, parseTime, replies, s1, s1, s1);
  }

  /** A restore rejected with one of the listed fault codes ends the run at
      the restore with that code. */
  lemma RestoreFaultHalts(env: Env, parseTime: string -> Option<Instant>, replies: nat -> Reply, code: FaultCode)
    requires env.restoreDate == "" && RestoreFaultListed(code)
    requires replies(0) == AwsFault(DBInstanceNotFoundFault) && replies(1) == AwsFault(DBClusterNotFoundFault)
    requires replies(2) == AwsFault(code)
    ensures RunSpec(env, parseTime, replies)
         == Run([InstanceCheck, ClusterCheck, Restore], Halted(Restore, Fault(code)),
                [DescribeInstances(env.restoreRDS + "-0"), DescribeClusters(env.restoreRDS), LatestRestore(env)])
  {
    var p := RestoreParams(env);
    var l2 := [DescribeInstances(env.restoreRDS + "-0"), DescribeClusters(env.restoreRDS)];
    var t2 := [InstanceCheck, ClusterCheck];
    NothingToTearDown(env, parseTime, replies);
    LatestRestoreSent(env, parseTime, replies, l2);
    RunStepsStops(p, parseTime, replies, Provisioning, t2, l2);
    RunSpecByPhases(env, parseTime, replies, Continue([InstanceCheck], l2[..1]), Continue(t2, l2),
              RunSteps(p, parseTime, replies, Provisioning, t2, l2));
  }

  /** A run of steps always takes its first step. */
  lemma FirstStepTaken(p: Params, parseTime: string -> Option<Instant>, replies: nat -> Reply,
                       steps: seq<Step>, trace: seq<Step>, log: seq<Request>)
    requires steps != []
    ensures var s := RunSteps(p, parseTime, replies, steps, trace, log);
            |s.Trace()| > |trace| && s.Trace()[..|trace| + 1] == trace + [steps[0]]
  {
    RunStepsShape(p, parseTime, replies, steps, trace, log);
    var t := RunSteps(p, parseTime, replies, steps, trace, log).Trace();
    var k := |t| - |trace|;
    assert t[..|trace| + 1] == (trace + steps[..k])[..|trace| + 1];
    assert (trace + steps[..k])[..|trace| + 1] == trace + [steps[0]];
  }

  /** A restore rejected with a fault code outside the list is taken for
      success: the provisioning goes on to wait for a cluster that was not
      created. */
  lemma UnlistedRestoreFaultContinues(env: Env, parseTime: string -> Option<Instant>, replies: nat -> Reply,
                                      trace: seq<Step>, log: seq<Request>, code: string)
    requires env.restoreDate == "" && replies(|log|) == AwsFault(Unlisted(code))
    ensures var s := RunSteps(RestoreParams(env), parseTime, replies, Provisioning, trace, log);
            |s.Trace()| > |trace| + 1 && s.Trace()[..|trace| + 2] == trace + [Restore, ClusterCreateWait]
  {
    RestoreGoesOn(env, parseTime, replies, trace, log);
    FirstStepTaken(RestoreParams(env), parseTime, replies, Provisioning[1..], trace + [Restore], log + [LatestRestore(env)]);
    assert trace + [Restore] + [Provisioning[1..][0]] == trace + [Restore, ClusterCreateWait];
  }

  /** A restore date whose time does not parse ends the run at the restore
      with a time-format error, before any restore request is sent. */
  lemma UnparsableTimeHalts(env: Env, parseTime: string -> Option<Instant>, replies: nat -> Reply)
    requires env.restoreDate != "" && parseTime(RestoreFromTime(env.restoreDate, env.restoreTime)).None?
    requires replies(0) == AwsFault(DBInstanceNotFoundFault) && replies(1) == AwsFault(DBClusterNotFoundFault)
    ensures RunSpec(env, parseTime, replies)
         == Run([InstanceCheck, ClusterCheck, Restore], Halted(Restore, TimeFormat),
                [DescribeInstances(env.restoreRDS + "-0"), DescribeClusters(env.restoreRDS)])
  {
    var p := RestoreParams(env);
    var l2 := [DescribeInstances(env.restoreRDS + "-0"), DescribeClusters(env.restoreRDS)];
    var t2 := [InstanceCheck, ClusterCheck];
    NothingToTearDown(env, parseTime, replies);
    assert Lookup(p, "restoreFromTime") == RestoreFromTime(env.restoreDate, env.restoreTime);
    assert RestoreInputFor(p, parseTime).None?;
    RunStepsStops(p, parseTime, replies, Provisioning, t2, l2);
    RunSpecByPhases(env, parseTime, replies, Continue([InstanceCheck], l2[..1]), Continue(t2, l2),
              RunSteps(p, parseTime, replies, Provisioning, t2, l2));
  }

  /** A cluster wait whose every describe sees "creating" ends the
      provisioning with the out-of-attempts error after MaxWaitAttempts
      describes and an hour of sleep. */
  lemma ClusterWaitGivesUp(p: Params, parseTime: string -> Option<Instant>, replies: nat -> Reply,
                           trace: seq<Step>, log: seq<Request>)
    requires forall i :: |log| <= i < |log| + MaxWaitAttempts ==> replies(i) == Accepted("creating")
    ensures var s := RunSteps(p, parseTime, replies, Provisioning[1..], trace, log);
            && s.Stopped?
            && s.run.trace == trace + [ClusterCreateWait]
            && s.run.end == Halted(ClusterCreateWait, AttemptsExhausted)
            && |s.run.log| == |log| + MaxWaitAttempts
    ensures Wait(ClusterCreated, p, replies, log).sleptSeconds == 3600
  {
    forall i | |log| <= i < |log| + MaxWaitAttempts
      ensures KeepsWaiting(ClusterCreated, replies, i)
    {
      assert replies(i) == Accepted("creating");
    }
    PollTimesOut(ClusterCreated, p, replies, log);
    RunStepsStops(p, parseTime, replies, Provisioning[1..], trace, log);
  }

  /** A restored cluster that stays "creating" ends the run at the cluster
      wait after 120 describes and an hour of sleep, with the out-of-attempts
      error; no instance is created. */
  lemma ClusterNeverAvailable(env: Env, parseTime: string -> Option<Instant>, replies: nat -> Reply)
    requires env.restoreDate == ""
    requires replies(0) == AwsFault(DBInstanceNotFoundFault) && replies(1) == AwsFault(DBClusterNotFoundFault)
    requires replies(2).Accepted?
    requires forall i :: 3 <= i < 3 + MaxWaitAttempts ==> replies(i) == Accepted("creating")
    ensures var run := RunSpec(env, parseTime, replies);
            && run.trace == [InstanceCheck, ClusterCheck, Restore, ClusterCreateWait]
            && run.end == Halted(ClusterCreateWait, AttemptsExhausted)
            && |run.log| == 3 + MaxWaitAttempts
    ensures var l3 := [DescribeInstances(env.restoreRDS + "-0"), DescribeClusters(env.restoreRDS), LatestRestore(env)];
            Wait(ClusterCreated, RestoreParams(env), replies, l3).sleptSeconds == 3600
  {
    var l3 := [DescribeInstances(env.restoreRDS + "-0"), DescribeClusters(env.restoreRDS), LatestRestore(env)];
    FreshRestore(env, parseTime, replies);
    ClusterWaitGivesUp(RestoreParams(env), parseTime, replies, [InstanceCheck, ClusterCheck, Restore], l3);
  }
}
