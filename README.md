# automated_rds_restore — a Dafny model of the restore orchestration

`main.go` rebuilds an Aurora cluster from a point-in-time restore of a source
cluster. First it clears the destination:

- it checks whether the destination instance (`<cluster>-0`) exists and, only if
  it does, deletes it and waits until it is gone;
- it then checks whether the destination cluster exists and, only if it does,
  deletes it and waits until it is gone.

Then it restores the source into the destination cluster, waits until the
cluster is available, creates the instance and waits until that is available.
The first step that returns an error ends the program with `os.Exit(1)`.

The model replaces the RDS control plane with a reply oracle,
`replies: nat -> Reply`. The request at position k of a run's request log gets
`replies(k)`. A reply is one of three things:

- an accepted call, carrying the status a describe reports;
- an AWS fault with its SDK error code;
- a non-AWS error.

Every operation takes the request log so far and returns it extended by what
the operation sent. This makes the order and the content of the calls a run
makes visible to the contracts.

Modules, one per concern of `main.go`:

- `Rds` (rds.dfy): requests, replies, fault codes, outcomes, the parameter map
  and the `-0` instance naming.
- `Config` (params.dfy): how the environment values become `restoreParams`.
- `Calls` (calls.dfy): the single-call operations, which are the existence
  checks, the deletes, the restore and the create.
- `Waits` (waits.dfy): the four bounded poll loops.
- `Orchestrator` (orchestrator.dfy): `main`'s step sequence and the
  properties of whole runs.
- `Scenarios` (scenarios.dfy): whole runs for given reply sequences.
- `Duration` (duration.dfy): `fmtDuration`, with Go's int64 `time.Duration`,
  truncating division and `Duration.Round`.

Where the code is imperative, the model is too:

- `Config.DeriveParams` updates the map in place;
- the four waits run a counter `while` loop (`Waits.PollLoop`);
- `main` is `Orchestrator.RestoreDatabase`, made of three phase methods with
  early exits;
- `fmtDuration` reassigns its duration step by step.

Each of these methods is proved equal to a specification function. The
properties are proved as lemmas about those functions.

The model follows the code as written, including behaviour that looks
unintended:

- a restore fault whose code is not in the switch of `restorePointInTimeRDS`
  reaches `default`, which only prints, so the restore reports success;
- deleting an instance or a cluster that is already gone is an error;
- the two delete waits make a describe before their loop and fail if it
  reports any AWS fault, "not found" included. A non-AWS error there is not
  caught and the loop runs;
- inside the two delete-wait loops, a non-AWS describe error is not returned.
  The code then reads the status of the first entry of the describe response,
  which holds none, and panics. This is modelled as the outcome `Panic`, and a
  run ending so is `Crashed`;
- the two instance waits return nil after 120 unsuccessful attempts; the two
  cluster waits return an error (`AttemptsExhausted`). The TODO at main.go:18
  says the instance waits were meant to work the same way as the cluster ones;
- the restore request always carries the subnet group, the security group and
  the `ManagedBy=Terraform` tag, whether or not they were given.

## Model

| member | source | states |
|---|---|---|
| Rds.Lookup | main.go:178 | a key missing from `restoreParams` reads as the empty string, a present key as its value |
| Rds.InstanceName | main.go:297 | the instance name is the cluster name followed by exactly the suffix `-0` |
| Rds.InstanceNameInjective | main.go:387 | two clusters share an instance name only if they are the same cluster, and an instance name never equals its cluster's name |
| Rds.InstanceId | main.go:480-481 | the instance every call names is `restoreParams["restoreRDS"] + "-0"` |
| Config.RestoreFromTime | main.go:59-64 | the restore timestamp of a given date: `date+"T"+time+".000Z"`, or `date+"T01:00:00.000Z"` without a time; Config.ExplicitTimeIffDate and Config.DefaultTimeIsOneAm state what it promises |
| Config.OrDefault | main.go:71-82 | an empty optional value becomes the default, any other value passes through unchanged |
| Config.RestoreParams | main.go:43-82 | the map has the five required keys with their values, `rdsInstanceType` and `rdsEngine`, and `restoreFromTime` exactly when a date is given; the time is `date+"T"+time+".000Z"`, or `date+"T01:00:00.000Z"` without a time; instance type and engine default to `db.t3.small` and `aurora-mysql` exactly when empty |
| Config.DeriveParams | main.go:43-82 | the map built by the literal and the in-place updates is the one RestoreParams describes |
| Config.ExplicitTimeIffDate | main.go:59-64 | the restore time read back from the map is non-empty exactly when a date was given |
| Config.DefaultTimeIsOneAm | main.go:62-64 | a date without a time gives the same timestamp as that date at 01:00:00 |
| Config.InstanceSettingsNeverEmpty | main.go:70-82 | instance class and engine in the map are never empty |
| Calls.Exists | main.go:487-509 | one describe is sent; present and nil error iff the call succeeded; absent and nil error iff the reply is the resource's not-found code; otherwise absent with that fault or a transport error |
| Calls.RdsInstanceExists | main.go:479-509 | describes the `-0` instance; success means `(true, nil)`, `DBInstanceNotFoundFault` means `(false, nil)`, any other failure `(false, err)` |
| Calls.RdsClusterExists | main.go:513-542 | describes the destination cluster; success means `(true, nil)`, `DBClusterNotFoundFault` means `(false, nil)`, any other failure `(false, err)` |
| Calls.Mutate | main.go:394-426 | one request is sent, and the result is nil iff the call succeeded; any failure is an error carrying the fault |
| Calls.DeleteRdsInstance | main.go:385-430 | sends a delete of the `-0` instance without a final snapshot; nil iff the call succeeded; a not-found fault is an error |
| Calls.DeleteRdsCluster | main.go:434-475 | sends a delete of the destination cluster without a final snapshot; nil iff the call succeeded; a not-found fault is an error |
| Calls.CreateRdsInstance | main.go:295-381 | sends a create of the `-0` instance in the destination cluster with the instance class and engine from the map; nil iff the call succeeded, listed code or not |
| Calls.RestoreFaultListed | main.go:224-281 | the eighteen fault codes the switch of `restorePointInTimeRDS` names, each of whose cases returns an error; Calls.RestoreErrorClassification states what listing decides |
| Calls.RestoreOutcome | main.go:220-291 | a restore reply gives nil iff it was accepted or is an AWS fault outside the switch's list; every other reply is the error naming it; the restore never panics |
| Calls.RestoreInputFor | main.go:176-216 | the restore request built from the parameters, or none when the explicit time does not parse; its fields are stated by Calls.RestoreRequestFields and Calls.RestoreModesExclusive |
| Calls.RestoreRequestFields | main.go:176-216 | no request iff an explicit time is given and does not parse; otherwise latest-restorable is set iff no time is given, and then the restore time is unset; an explicit time is the parsed one; the request names destination, source, subnet group, security group and the `ManagedBy=Terraform` tag |
| Calls.RestorePointInTimeRds | main.go:174-291 | an unparsable time is a time-format error before any request; otherwise exactly the restore request is sent and its reply classified by RestoreOutcome |
| Calls.RestoreErrorClassification | main.go:222-291 | a listed fault code and a non-AWS error stop the restore with an error; an unlisted fault code returns nil |
| Calls.RestoreModesExclusive | main.go:178-216 | the restore request sets exactly one of latest-restorable and an explicit restore time |
| Waits.Reaction | main.go:585-603 | what one describe reply does inside a wait loop: keep waiting, or leave the loop with nil, an error or a panic; Waits.ReactionMeaning states each case for the delete and the create waits |
| Waits.ReactionMeaning | main.go:585-603 | in a delete wait, not found or `terminated` ends the loop with nil, another AWS fault with that error, a non-AWS error panics; in a create wait only `available` ends it with nil and every failure is an error; any other status keeps the loop waiting |
| Waits.Poll | main.go:577-608 | the wait loop from a given attempt: at most 120 describes, one 30 s sleep after each waiting reply, and the out-of-attempts result of its kind after the last; Waits.PollShape, Waits.PollEndsAt and Waits.PollAllWaiting state its results |
| Waits.Wait | main.go:546-608 | a whole wait: the delete waits' pre-check describe, failing on any AWS fault, then the loop; Waits.DeleteWaitPreCheck and Waits.WaitBounds state its results |
| Waits.PollLoop | main.go:577-608 | the counter loop gives exactly the result of the specification Poll |
| Waits.DeleteWait | main.go:555-567 | the pre-check describe and the loop together give exactly Wait's result |
| Waits.WaitUntilRdsClusterDeleted | main.go:546-608 | the cluster-deleted wait is the delete wait on the cluster |
| Waits.WaitUntilRdsClusterCreated | main.go:612-646 | the cluster-created wait is the loop on the cluster |
| Waits.WaitUntilRdsInstanceDeleted | main.go:650-711 | the instance-deleted wait is the delete wait on the instance |
| Waits.WaitUntilRdsInstanceCreated | main.go:715-749 | the instance-created wait is the loop on the instance |
| Waits.PollShape | main.go:577-606 | the loop makes between one and 120 describes of the waited-for resource; every reply but the last kept it waiting; it ends with what the last reply says after one 30 s sleep per earlier attempt, or after 120 waiting replies with the out-of-attempts result and an hour of sleep |
| Waits.PollEndsAt | main.go:626-644 | from any attempt a, if the next k - 1 replies keep the loop waiting and the k-th ends it, the loop returns what the k-th says after a + k attempts, k more describes and one 30 s sleep per attempt before the last |
| Waits.PollAllWaiting | main.go:577-608 | from any attempt a, if every remaining reply keeps the loop waiting, it makes the remaining 120 - a describes, sleeps 30 s after each of the 120 attempts and returns the out-of-attempts result of its kind |
| Waits.PollExhaustedOnlyWhenAllWait | main.go:577-608 | the loop reports running out of attempts only for a cluster wait and only when every remaining reply kept it waiting |
| Waits.PollSucceedsAt | main.go:633-644 | the wait succeeds at attempt k when the k-th describe shows the target and every earlier one another status |
| Waits.PollTimesOut | main.go:626-646 | 120 waiting replies give exactly 120 describes, 3600 s of sleep and the out-of-attempts result |
| Waits.ClusterWaitTimeoutIff | main.go:577-608 | a cluster wait reports running out of attempts iff none of its 120 describes ended the loop |
| Waits.InstanceWaitNeverTimesOut | main.go:679-711 | an instance wait never reports running out of attempts, and returns nil after 120 waiting replies |
| Waits.DeleteWaitPreCheck | main.go:659-671 | any AWS fault in a delete wait's pre-check, not found included, is an error after one describe; otherwise the loop runs after it |
| Waits.WaitBounds | main.go:574-577 | a wait makes at most 120 describes in its loop (one more for a delete wait's pre-check), sleeps at most 3600 s, keeps the log before it, and sends only describes of the waited-for resource |
| Orchestrator.After | main.go:86-89 | a step that returns nil lets the run go on; an error halts it at that step with that cause, a panic crashes it there |
| Orchestrator.RunSteps | main.go:84-157 | main's steps taken one after the other, each followed by the exit on a non-nil error; Orchestrator.RunStepsGoesOn, Orchestrator.RunStepsStops and Orchestrator.RunStepsShape state its behaviour |
| Orchestrator.RunStepsGoesOn | main.go:132-157 | after a step that returns nil, the remaining steps run from the log that step left |
| Orchestrator.RunStepsStops | main.go:133-136 | a step that returns an error or panics ends the run there, with no later step |
| Orchestrator.TearDownInstance | main.go:84-105 | main's instance check and conditional teardown give exactly InstancePhase |
| Orchestrator.TearDownCluster | main.go:107-129 | main's cluster check and conditional teardown give exactly ClusterPhase |
| Orchestrator.RestoreCluster | main.go:131-144 | the restore and the cluster-created wait with early exits give exactly RunSteps over those two steps |
| Orchestrator.CreateInstanceInCluster | main.go:146-157 | the instance create and the instance-created wait with early exits give exactly RunSteps over those two steps |
| Orchestrator.RunStepsAppend | main.go:132-157 | running a list of steps followed by more steps is running the first list and then, if it went on, the rest from where it left off |
| Orchestrator.Provision | main.go:131-157 | restore, cluster wait, create and instance wait with early exits give exactly RunSteps over Provisioning |
| Orchestrator.RestoreDatabase | main.go:43-157 | main's whole run gives exactly RunSpec |
| Orchestrator.RunFrom | main.go:84-157 | main's run from the derived parameters: instance phase, cluster phase, then provisioning, the first phase that stops ending the run; Orchestrator.RunFollowsPlan, Orchestrator.RunChecksTarget and Orchestrator.RunEffects state its properties |
| Orchestrator.RunSpecByPhases | main.go:84-157 | a run is the instance phase if it stopped there, else the cluster phase if it stopped there, else the provisioning |
| Orchestrator.RunStepsShape | main.go:132-157 | consecutive steps extend the trace by a non-empty prefix of them, all of them unless the run stopped at the last one taken |
| Orchestrator.RunFollowsPlan | main.go:84-157 | a run's steps are a non-empty prefix of the plan; the instance is deleted only if the first describe found it and the cluster only if the cluster describe found it; a completed run took every planned step; any other run's last step is the one that failed |
| Orchestrator.RunChecksTarget | main.go:85-109 | the first request describes `restoreRDS + "-0"`, and once the instance phase went on, the cluster describe of `restoreRDS` follows it |
| Orchestrator.ExecConsistent | main.go:85-157 | each step adds exactly its own state-changing request to the log, and only requests that name the destination |
| Orchestrator.RunEffects | main.go:84-157 | the state-changing requests of a run are exactly those of the steps it took, in order, and every request names the destination, deletes skipping the final snapshot |
| Orchestrator.SourceNeverDeleted | main.go:92-129 | when source and destination differ, every delete names the destination cluster or its `-0` instance, never the source |
| Scenarios.NothingToTearDown | main.go:84-115 | when both checks report not found, the two teardown phases make only the two describes |
| Scenarios.LatestRestoreSent | main.go:201-220 | without a restore date the restore sends the latest-restorable request with subnet group, security group and tag |
| Scenarios.RestoreGoesOn | main.go:174-220 | without a restore date, a restore reply taken for success sends the latest-restorable request and leaves the provisioning to the three later steps |
| Scenarios.FreshRestore | main.go:84-134 | with nothing to tear down and a restore taken for success, the run is the three provisioning steps after the restore, from three requests |
| Scenarios.ProvisionedAtOnce | main.go:138-157 | three immediately successful provisioning steps after the restore send the cluster describe, the create and the instance describe, and complete the run |
| Scenarios.FreshDestination | main.go:84-157 | with nothing to tear down and every provisioning step succeeding at once, the run completes after exactly six steps and six requests |
| Scenarios.DeletingThenGone | main.go:659-705 | an instance delete wait that sees `deleting` twice and then not found returns nil after three describes and one sleep |
| Scenarios.InstanceFound | main.go:85-99 | an existing instance whose delete is accepted leaves the instance phase at its delete wait, after the describe and the delete without a final snapshot |
| Scenarios.InstanceTakesClusterAlong | main.go:107-115 | an instance teardown followed by a not-found cluster check skips the cluster teardown |
| Scenarios.DeletedBeforeWait | main.go:100-104 | an instance already gone at its delete wait's pre-check halts the run there with the not-found error |
| Scenarios.RestoreFaultHalts | main.go:222-278 | a listed restore fault halts the run at the restore with that code |
| Scenarios.UnlistedRestoreFaultContinues | main.go:279-291 | an unlisted restore fault is taken for success, so the provisioning goes on to the cluster-created wait |
| Scenarios.UnparsableTimeHalts | main.go:178-182 | an unparsable restore time halts the run at the restore before any restore request is sent |
| Scenarios.ClusterWaitGivesUp | main.go:138-143 | 120 `creating` replies halt the provisioning at the cluster wait with the out-of-attempts error, after 120 describes and 3600 s of sleep |
| Scenarios.ClusterNeverAvailable | main.go:626-646 | a cluster that stays `creating` halts the run at the cluster wait after 120 describes and 3600 s of sleep, with no instance created |
| Duration.Quot | main.go:755-757 | Go's `/` on durations truncates toward zero |
| Duration.Round | main.go:754 | Go's `Duration.Round`: to a multiple of the minute, halves away from zero, saturating at the ends of the int64 range; Duration.RoundNearest and Duration.RoundSaturates state its results |
| Duration.RoundNearest | main.go:754 | away from the ends of the int64 range, the rounded duration is a multiple of the minute at most half a minute away, with halves rounded away from zero |
| Duration.RoundSaturates | main.go:754 | a duration that would round up past the int64 maximum gives the maximum |
| Duration.ClockFields | main.go:755-757 | hours times 60 plus minutes is the duration's whole minutes, truncated; minutes lie strictly between -60 and 60 and share the sign of the duration |
| Duration.DigitsRoundTrip | main.go:758 | the decimal digits of n read back as n |
| Duration.Pad2 | main.go:758 | Go's `%02d` of an integer: its digits padded with a leading zero to two characters, a negative one as minus sign and digits; Duration.Pad2Shape states its shape and read-back |
| Duration.Pad2Shape | main.go:758 | `%02d` is at least two characters, exactly two for 0..99, starts with `-` iff the number is negative, and reads back as the number: directly when non-negative, as the digits of its absolute value after the `-` when negative |
| Duration.ClockTextReadsBack | main.go:758 | in `HHhMMm` the two characters before the final `m` are the minutes and everything before the `h` is the hours |
| Duration.FmtDuration | main.go:753-759 | the text is the clock text of the hours and minutes of the duration rounded to the minute |
| Duration.ElapsedClock | main.go:753-759 | for a non-negative duration, minutes are in 0..59 and hours·60 + minutes is the duration rounded to the nearest minute, halves up |

## Left out

- Session and client construction (`initRDSClient`, main.go:160-172) and the exit when it fails (main.go:52-56): the model starts from a working client.
- The environment reads (main.go:25-40): the values are the fields of `Config.Env`.
- All printing, the error message texts, and the elapsed-time output of the waits (main.go:581, 629, 682, 731). Errors are modelled by their cause, not by their message.
- `time.Sleep`, `time.Now` and `time.Since`: the waits count slept seconds instead.
- `time.Parse` with RFC 3339: it is the parameter `parseTime`, which either fails or gives an opaque `Instant`.
- The SDK error-code strings: fault codes are identified by their Go constant names.
- Empty describe responses: an accepted describe always carries a status. The code indexes `DBClusters[0]` / `DBInstances[0]` without a check.
- Go's `time.Duration.Round` comes from the standard library, not from main.go. It is modelled from its documented behaviour, including the overflow check by wrap-around.
- `fmtDuration` is not called anywhere in main.go. It is modelled on its own.
- Duration.ElapsedClock: states the clock fields only for durations from 0 up to the int64 maximum less one minute; negative and near-maximum durations are covered only by Duration.RoundNearest, Duration.RoundSaturates and Duration.ClockFields.
- Duration.RoundSaturates: only the upward saturation at the int64 maximum is stated; the downward saturation at the minimum is in `Duration.Round` but has no lemma of its own.
- Scenarios.InstanceTakesClusterAlong: states the two teardown phases only, not the provisioning that follows them.
