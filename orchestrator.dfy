/** The orchestrator: main's fixed sequence of steps. Check the destination
    instance and, only if it exists, delete it and wait until it is gone; then
    check the destination cluster and, only if it exists, delete it and wait
    until it is gone; then restore, wait for the cluster, create the instance
    and wait for it. The first step that returns an error ends the run with
    `os.Exit(1)` (here: Halted); a panic in a wait loop ends it as Crashed. */
module Orchestrator {
  import opened Rds
  import opened Config
  import opened Calls
  import opened Waits

  datatype Step =
    | InstanceCheck | InstanceDelete | InstanceDeleteWait
    | ClusterCheck | ClusterDelete | ClusterDeleteWait
    | Restore | ClusterCreateWait | InstanceCreate | InstanceCreateWait

  datatype RunEnd =
    | Completed
    | Halted(at: Step, cause: Cause)   // os.Exit(1) after the step's error
    | Crashed(at: Step)                // the step panicked

  /** A whole run: the steps it started in order, how it ended, and every
      request it sent. */
  datatype Run = Run(trace: seq<Step>, end: RunEnd, log: seq<Request>)

  /** A run in progress after some steps: still going, or over. */
  datatype Stage = Continue(trace: seq<Step>, log: seq<Request>) | Stopped(run: Run) {
    function Trace(): seq<Step> { if Continue? then trace else run.trace }
    function Log(): seq<Request> { if Continue? then log else run.log }
  }

  /** A teardown: the existence check, then the delete and its wait only if
      the check found the resource. */
  function Teardown(check: Step, delete: Step, wait: Step, found: bool): seq<Step> {
    [check] + (if found then [delete, wait] else [])
  }

  const Provisioning: seq<Step> := [Restore, ClusterCreateWait, InstanceCreate, InstanceCreateWait]

  /** The order in which main takes the steps, given what the two existence
      checks report. */
  function Plan(instanceFound: bool, clusterFound: bool): seq<Step> {
    Teardown(InstanceCheck, InstanceDelete, InstanceDeleteWait, instanceFound)
    + Teardown(ClusterCheck, ClusterDelete, ClusterDeleteWait, clusterFound)
    + Provisioning
  }

  /** How a run ends when `step` returned a non-nil error or panicked. */
  function Halt(trace: seq<Step>, step: Step, outcome: Outcome, log: seq<Request>): Run
    requires outcome != Ok
  {
    Run(trace + [step], if outcome.Err? then Halted(step, outcome.cause) else Crashed(step), log)
  }

  /** Record `step` in the trace and go on only if it returned nil. */
  function After(trace: seq<Step>, step: Step, outcome: Outcome, log: seq<Request>): (s: Stage)
    ensures s.Trace() == trace + [step] && s.Log() == log
    ensures s.Continue? <==> outcome == Ok
    ensures s.Stopped? ==> !s.run.end.Completed? && s.run.end.at == step
    ensures s.Stopped? && outcome.Err? ==> s.run.end == Halted(step, outcome.cause)
    ensures s.Stopped? && outcome.Panic? ==> s.run.end == Crashed(step)
  {
    if outcome == Ok then Continue(trace + [step], log) else Stopped(Halt(trace, step, outcome, log))
  }

  /** A wait, seen as a step: what it returns and the log after it. */
  function WaitStep(kind: WaitKind, p: Params, replies: nat -> Reply, log: seq<Request>): Called {
    var w := Wait(kind, p, replies, log);
    Called(w.outcome, w.log)
  }

  /** The function main calls for `step`, with the error it returns. */
  function Exec(p: Params, parseTime: string -> Option<Instant>, replies: nat -> Reply,
                step: Step, log: seq<Request>): Called {
    match step
    case InstanceCheck => var c := RdsInstanceExists(p, replies, log); Called(c.outcome, c.log)
    case InstanceDelete => DeleteRdsInstance(p, replies, log)
    case InstanceDeleteWait => WaitStep(InstanceDeleted, p, replies, log)
    case ClusterCheck => var c := RdsClusterExists(p, replies, log); Called(c.outcome, c.log)
    case ClusterDelete => DeleteRdsCluster(p, replies, log)
    case ClusterDeleteWait => WaitStep(ClusterDeleted, p, replies, log)
    case Restore => RestorePointInTimeRds(p, parseTime, replies, log)
    case ClusterCreateWait => WaitStep(ClusterCreated, p, replies, log)
    case InstanceCreate => CreateRdsInstance(p, replies, log)
    case InstanceCreateWait => WaitStep(InstanceCreated, p, replies, log)
  }

  /** Take `steps` one after the other, each followed by main's
      `if err != nil { os.Exit(1) }`. */
  function RunSteps(p: Params, parseTime: string -> Option<Instant>, replies: nat -> Reply,
                    steps: seq<Step>, trace: seq<Step>, log: seq<Request>): Stage
    decreases |steps|
  {
    if steps == [] then Continue(trace, log)
    else
      var c := Exec(p, parseTime, replies, steps[0], log);
      match After(trace, steps[0], c.outcome, c.log)
      case Stopped(run) => Stopped(run)
      case Continue(t, l) => RunSteps(p, parseTime, replies, steps[1..], t, l)
  }

  /** A step that returns nil lets the rest of the steps run. */
  lemma RunStepsGoesOn(p: Params, parseTime: string -> Option<Instant>, replies: nat -> Reply,
                       steps: seq<Step>, trace: seq<Step>, log: seq<Request>)
    requires steps != [] && Exec(p, parseTime, replies, steps[0], log).outcome == Ok
    ensures RunSteps(p, parseTime, replies, steps, trace, log)
         == RunSteps(p, parseTime, replies, steps[1..], trace + [steps[0]], Exec(p, parseTime, replies, steps[0], log).log)
  {
  }

  /** A step that returns an error or panics ends the run there. */
  lemma RunStepsStops(p: Params, parseTime: string -> Option<Instant>, replies: nat -> Reply,
                      steps: seq<Step>, trace: seq<Step>, log: seq<Request>)
    requires steps != [] && Exec(p, parseTime, replies, steps[0], log).outcome != Ok
    ensures var c := Exec(p, parseTime, replies, steps[0], log);
            RunSteps(p, parseTime, replies, steps, trace, log) == Stopped(Halt(trace, steps[0], c.outcome, c.log))
  {
  }

  /** An existence check as a step: stop on its error, and take `ifFound`
      only when it reports the resource present. */
  function CheckThen(p: Params, parseTime: string -> Option<Instant>, replies: nat -> Reply,
                     check: Checked, step: Step, ifFound: seq<Step>, trace: seq<Step>): Stage {
    match After(trace, step, check.outcome, check.log)
    case Stopped(run) => Stopped(run)
    case Continue(t, l) => if check.present then RunSteps(p, parseTime, replies, ifFound, t, l) else Continue(t, l)
  }

  /** main.go lines 85-105: the instance check and, if the instance exists,
      its teardown. */
  function InstancePhase(p: Params, parseTime: string -> Option<Instant>, replies: nat -> Reply): Stage {
    CheckThen(p, parseTime, replies, RdsInstanceExists(p, replies, []), InstanceCheck,
              [InstanceDelete, InstanceDeleteWait], [])
  }

  /** main.go lines 109-129: the cluster check and, if the cluster exists,
      its teardown. */
  function ClusterPhase(p: Params, parseTime: string -> Option<Instant>, replies: nat -> Reply,
                        trace: seq<Step>, log: seq<Request>): Stage {
    CheckThen(p, parseTime, replies, RdsClusterExists(p, replies, log), ClusterCheck,
              [ClusterDelete, ClusterDeleteWait], trace)
  }

  /** The run main makes for environment `env`, time parser `parseTime` and
      control-plane replies `replies`. */
  function RunSpec(env: Env, parseTime: string -> Option<Instant>, replies: nat -> Reply): Run {
    RunFrom(RestoreParams(env), parseTime, replies)
  }

  /** The three phases main runs once the parameters `p` are derived. */
  function RunFrom(p: Params, parseTime: string -> Option<Instant>, replies: nat -> Reply): Run {
    match InstancePhase(p, parseTime, replies)
    case Stopped(run) => run
    case Continue(t1, l1) =>
      match ClusterPhase(p, parseTime, replies, t1, l1)
      case Stopped(run) => run
      case Continue(t2, l2) => Finish(RunSteps(p, parseTime, replies, Provisioning, t2, l2))
  }

  /** The run a last stage makes: the run it stopped, or a completed one. */
  function Finish(s: Stage): Run {
    match s
    case Stopped(run) => run
    case Continue(t, l) => Run(t, Completed, l)
  }

  /** A run is what its three phases give: the first phase that stops
      ends it, and it completes when none does. */
  lemma RunSpecByPhases(env: Env, parseTime: string -> Option<Instant>, replies: nat -> Reply, s1: Stage, s2: Stage, s3: Stage)
    requires s1 == InstancePhase(RestoreParams(env), parseTime, replies)
    requires s1.Continue? ==> s2 == ClusterPhase(RestoreParams(env), parseTime, replies, s1.trace, s1.log)
    requires s1.Continue? && s2.Continue? ==>
               s3 == RunSteps(RestoreParams(env), parseTime, replies, Provisioning, s2.trace, s2.log)
    ensures RunSpec(env, parseTime, replies)
         == if s1.Stopped? then s1.run else if s2.Stopped? then s2.run else Finish(s3)
  {
  }

  /** main.go lines 85-105, as main runs them. */
  method TearDownInstance(p: Params, parseTime: string -> Option<Instant>, replies: nat -> Reply)
    returns (s: Stage)
    ensures s == InstancePhase(p, parseTime, replies)
  {
    var check := RdsInstanceExists(p, replies, []);
    if check.outcome != Ok {
      return Stopped(Halt([], InstanceCheck, check.outcome, check.log));
    }
    var trace, log := [InstanceCheck], check.log;
    if check.present {
      var deleted := DeleteRdsInstance(p, replies, log);
      if deleted.outcome != Ok {
        return Stopped(Halt(trace, InstanceDelete, deleted.outcome, deleted.log));
      }
      trace, log := trace + [InstanceDelete], deleted.log;
      var waited := WaitUntilRdsInstanceDeleted(p, replies, log);
      if waited.outcome != Ok {
        return Stopped(Halt(trace, InstanceDeleteWait, waited.outcome, waited.log));
      }
      trace, log := trace + [InstanceDeleteWait], waited.log;
    }
    s := Continue(trace, log);
  }

  /** main.go lines 109-129, as main runs them. */
  method TearDownCluster(p: Params, parseTime: string -> Option<Instant>, replies: nat -> Reply,
                         trace: seq<Step>, log: seq<Request>) returns (s: Stage)
    ensures s == ClusterPhase(p, parseTime, replies, trace, log)
  {
    var check := RdsClusterExists(p, replies, log);
    if check.outcome != Ok {
      return Stopped(Halt(trace, ClusterCheck, check.outcome, check.log));
    }
    var trace', log' := trace + [ClusterCheck], check.log;
    if check.present {
      var deleted := DeleteRdsCluster(p, replies, log');
      if deleted.outcome != Ok {
        return Stopped(Halt(trace', ClusterDelete, deleted.outcome, deleted.log));
      }
      trace', log' := trace' + [ClusterDelete], deleted.log;
      var waited := WaitUntilRdsClusterDeleted(p, replies, log');
      if waited.outcome != Ok {
        return Stopped(Halt(trace', ClusterDeleteWait, waited.outcome, waited.log));
      }
      trace', log' := trace' + [ClusterDeleteWait], waited.log;
    }
    s := Continue(trace', log');
  }

  /** What is left of a run after `s` when `steps` come next. */
  function AndThen(p: Params, parseTime: string -> Option<Instant>, replies: nat -> Reply,
                   s: Stage, steps: seq<Step>): Stage {
    match s
    case Stopped(run) => Stopped(run)
    case Continue(t, l) => RunSteps(p, parseTime, replies, steps, t, l)
  }

  /** Steps in a row are the first ones, then, if those went on, the rest. */
  lemma {:induction false} RunStepsAppend(p: Params, parseTime: string -> Option<Instant>, replies: nat -> Reply,
                                          first: seq<Step>, rest: seq<Step>, trace: seq<Step>, log: seq<Request>)
    decreases |first|
    ensures RunSteps(p, parseTime, replies, first + rest, trace, log)
         == AndThen(p, parseTime, replies, RunSteps(p, parseTime, replies, first, trace, log), rest)
  {
    if first == [] {
      assert first + rest == rest;
    } else {
      assert (first + rest)[0] == first[0];
      assert (first + rest)[1..] == first[1..] + rest;
      var c := Exec(p, parseTime, replies, first[0], log);
      RunStepsAppend(p, parseTime, replies, first[1..], rest, trace + [first[0]], c.log);
    }
  }

  /** main.go lines 132-144, as main runs them: the restore, then the wait
      for the restored cluster. */
  method RestoreCluster(p: Params, parseTime: string -> Option<Instant>, replies: nat -> Reply,
                        trace: seq<Step>, log: seq<Request>) returns (s: Stage)
    ensures s == RunSteps(p, parseTime, replies, [Restore, ClusterCreateWait], trace, log)
  {
    var restored := RestorePointInTimeRds(p, parseTime, replies, log);
    if restored.outcome != Ok {
      RunStepsStops(p, parseTime, replies, [Restore, ClusterCreateWait], trace, log);
      return Stopped(Halt(trace, Restore, restored.outcome, restored.log));
    }
    RunStepsGoesOn(p, parseTime, replies, [Restore, ClusterCreateWait], trace, log);
    var ready := WaitUntilRdsClusterCreated(p, replies, restored.log);
    if ready.outcome != Ok {
      RunStepsStops(p, parseTime, replies, [ClusterCreateWait], trace + [Restore], restored.log);
      return Stopped(Halt(trace + [Restore], ClusterCreateWait, ready.outcome, ready.log));
    }
    RunStepsGoesOn(p, parseTime, replies, [ClusterCreateWait], trace + [Restore], restored.log);
    assert [Restore, ClusterCreateWait][1..] == [ClusterCreateWait] && [ClusterCreateWait][1..] == [];
    s := Continue(trace + [Restore, ClusterCreateWait], ready.log);
  }

  /** main.go lines 146-157, as main runs them: the create, then the wait
      for the new instance. */
  method CreateInstanceInCluster(p: Params, parseTime: string -> Option<Instant>, replies: nat -> Reply,
                                 trace: seq<Step>, log: seq<Request>) returns (s: Stage)
    ensures s == RunSteps(p, parseTime, replies, [InstanceCreate, InstanceCreateWait], trace, log)
  {
    var created := CreateRdsInstance(p, replies, log);
    if created.outcome != Ok {
      RunStepsStops(p, parseTime, replies, [InstanceCreate, InstanceCreateWait], trace, log);
      return Stopped(Halt(trace, InstanceCreate, created.outcome, created.log));
    }
    RunStepsGoesOn(p, parseTime, replies, [InstanceCreate, InstanceCreateWait], trace, log);
    var up := WaitUntilRdsInstanceCreated(p, replies, created.log);
    if up.outcome != Ok {
      RunStepsStops(p, parseTime, replies, [InstanceCreateWait], trace + [InstanceCreate], created.log);
      return Stopped(Halt(trace + [InstanceCreate], InstanceCreateWait, up.outcome, up.log));
    }
    RunStepsGoesOn(p, parseTime, replies, [InstanceCreateWait], trace + [InstanceCreate], created.log);
    assert [InstanceCreate, InstanceCreateWait][1..] == [InstanceCreateWait] && [InstanceCreateWait][1..] == [];
    s := Continue(trace + [InstanceCreate, InstanceCreateWait], up.log);
  }

  /** main.go lines 132-157, as main runs them. */
  method Provision(p: Params, parseTime: string -> Option<Instant>, replies: nat -> Reply,
                   trace: seq<Step>, log: seq<Request>) returns (s: Stage)
    ensures s == RunSteps(p, parseTime, replies, Provisioning, trace, log)
  {
    assert Provisioning == [Restore, ClusterCreateWait] + [InstanceCreate, InstanceCreateWait];
    RunStepsAppend(p, parseTime, replies, [Restore, ClusterCreateWait], [InstanceCreate, InstanceCreateWait], trace, log);
    var ready := RestoreCluster(p, parseTime, replies, trace, log);
    if ready.Stopped? {
      return ready;
    }
    s := CreateInstanceInCluster(p, parseTime, replies, ready.trace, ready.log);
  }

  /** main: derive the parameters, then run the three phases in order,
      stopping at the first error. */
  method RestoreDatabase(env: Env, parseTime: string -> Option<Instant>, replies: nat -> Reply) returns (run: Run)
    ensures run == RunSpec(env, parseTime, replies)
  {
    var p := DeriveParams(env);
    var instance := TearDownInstance(p, parseTime, replies);
    if instance.Stopped? {
      return instance.run;
    }
    var cluster := TearDownCluster(p, parseTime, replies, instance.trace, instance.log);
    if cluster.Stopped? {
      return cluster.run;
    }
    var provisioned := Provision(p, parseTime, replies, cluster.trace, cluster.log);
    if provisioned.Stopped? {
      return provisioned.run;
    }
    run := Run(provisioned.trace, Completed, provisioned.log);
  }

  // ---------------------------------------------------------------------
  // Ordering: the steps a run takes

  /** `s` extends the steps `before` by a non-empty prefix of `segment`: all
      of it when the run goes on, and up to the step that stopped it
      otherwise. */
  predicate Extends(before: seq<Step>, s: Stage, segment: seq<Step>) {
    && |before| < |s.Trace()| <= |before| + |segment|
    && s.Trace() == before + segment[..|s.Trace()| - |before|]
    && (s.Continue? ==> s.Trace() == before + segment)
    && (s.Stopped? ==> !s.run.end.Completed? && s.Trace()[|s.Trace()| - 1] == s.run.end.at)
  }

  /** `longer` is `log` followed by more requests. */
  predicate Grows(log: seq<Request>, longer: seq<Request>) {
    |log| <= |longer| && longer[..|log|] == log
  }

  /** A step only appends to the request log. */
  lemma ExecGrows(p: Params, parseTime: string -> Option<Instant>, replies: nat -> Reply,
                  step: Step, log: seq<Request>)
    ensures Grows(log, Exec(p, parseTime, replies, step, log).log)
  {
    match step {
      case InstanceDeleteWait => WaitBounds(InstanceDeleted, p, replies, log);
      case ClusterDeleteWait => WaitBounds(ClusterDeleted, p, replies, log);
      case ClusterCreateWait => WaitBounds(ClusterCreated, p, replies, log);
      case InstanceCreateWait => WaitBounds(InstanceCreated, p, replies, log);
      case _ =>
    }
  }

  /** Extending by one step and then by a prefix of `rest` extends by a
      prefix of `[step] + rest`. */
  lemma ExtendsCons(trace: seq<Step>, step: Step, rest: seq<Step>, s: Stage)
    requires Extends(trace + [step], s, rest)
    ensures Extends(trace, s, [step] + rest)
  {
    var k := |s.Trace()| - |trace|;
    assert ([step] + rest)[..k] == [step] + rest[..k - 1];
  }

  /** A run stopped by `step` extends `trace` by a prefix of any list that
      starts with `step`. */
  lemma ExtendsByStop(trace: seq<Step>, steps: seq<Step>, s: Stage)
    requires steps != [] && s.Stopped? && s.Trace() == trace + [steps[0]]
    requires !s.run.end.Completed? && s.run.end.at == steps[0]
    ensures Extends(trace, s, steps)
  {
    assert steps[..1] == [steps[0]];
  }

  /** Steps taken in a row follow their list in order and stop at the
      first that fails. */
  lemma {:induction false} RunStepsShape(p: Params, parseTime: string -> Option<Instant>, replies: nat -> Reply,
                                         steps: seq<Step>, trace: seq<Step>, log: seq<Request>)
    requires steps != []
    decreases |steps|
    ensures Extends(trace, RunSteps(p, parseTime, replies, steps, trace, log), steps)
  {
    var c := Exec(p, parseTime, replies, steps[0], log);
    var s := RunSteps(p, parseTime, replies, steps, trace, log);
    if c.outcome == Ok {
      RunStepsGoesOn(p, parseTime, replies, steps, trace, log);
      if steps[1..] == [] {
        assert steps == [steps[0]];
      } else {
        RunStepsShape(p, parseTime, replies, steps[1..], trace + [steps[0]], c.log);
        assert steps == [steps[0]] + steps[1..];
        ExtendsCons(trace, steps[0], steps[1..], s);
      }
    } else {
      RunStepsStops(p, parseTime, replies, steps, trace, log);
      ExtendsByStop(trace, steps, s);
    }
  }

  /** Steps taken in a row only append to the log. */
  lemma {:induction false} RunStepsGrows(p: Params, parseTime: string -> Option<Instant>, replies: nat -> Reply,
                                         steps: seq<Step>, trace: seq<Step>, log: seq<Request>)
    decreases |steps|
    ensures Grows(log, RunSteps(p, parseTime, replies, steps, trace, log).Log())
  {
    if steps != [] {
      var c := Exec(p, parseTime, replies, steps[0], log);
      ExecGrows(p, parseTime, replies, steps[0], log);
      if c.outcome == Ok {
        RunStepsGoesOn(p, parseTime, replies, steps, trace, log);
        RunStepsGrows(p, parseTime, replies, steps[1..], trace + [steps[0]], c.log);
        var l := RunSteps(p, parseTime, replies, steps[1..], trace + [steps[0]], c.log).Log();
        assert l[..|log|] == l[..|c.log|][..|log|];
      } else {
        RunStepsStops(p, parseTime, replies, steps, trace, log);
      }
    }
  }

  /** An existence check followed by a teardown takes the check, then the
      teardown only if the check found the resource, and stops at the first
      step that fails. */
  lemma CheckThenShape(p: Params, parseTime: string -> Option<Instant>, replies: nat -> Reply,
                       check: Checked, step: Step, ifFound: seq<Step>, trace: seq<Step>)
    requires ifFound != []
    ensures Extends(trace, CheckThen(p, parseTime, replies, check, step, ifFound, trace),
                    [step] + (if check.present && check.outcome == Ok then ifFound else []))
    ensures Grows(check.log, CheckThen(p, parseTime, replies, check, step, ifFound, trace).Log())
  {
    if check.outcome == Ok && check.present {
      RunStepsShape(p, parseTime, replies, ifFound, trace + [step], check.log);
      RunStepsGrows(p, parseTime, replies, ifFound, trace + [step], check.log);
      ExtendsCons(trace, step, ifFound, RunSteps(p, parseTime, replies, ifFound, trace + [step], check.log));
    }
  }

  /** The instance phase: check, then delete and wait only when the first
      describe found the instance. */
  lemma InstancePhaseSteps(p: Params, parseTime: string -> Option<Instant>, replies: nat -> Reply)
    ensures Extends([], InstancePhase(p, parseTime, replies),
                    Teardown(InstanceCheck, InstanceDelete, InstanceDeleteWait, replies(0).Accepted?))
    ensures Grows([DescribeInstances(InstanceId(p))], InstancePhase(p, parseTime, replies).Log())
  {
    CheckThenShape(p, parseTime, replies, RdsInstanceExists(p, replies, []), InstanceCheck,
                   [InstanceDelete, InstanceDeleteWait], []);
  }

  /** The cluster phase: check, then delete and wait only when the cluster
      describe (the request at log position |log|) found the cluster. */
  lemma ClusterPhaseSteps(p: Params, parseTime: string -> Option<Instant>, replies: nat -> Reply,
                          trace: seq<Step>, log: seq<Request>)
    ensures Extends(trace, ClusterPhase(p, parseTime, replies, trace, log),
                    Teardown(ClusterCheck, ClusterDelete, ClusterDeleteWait, replies(|log|).Accepted?))
    ensures Grows(log + [DescribeClusters(ClusterId(p))], ClusterPhase(p, parseTime, replies, trace, log).Log())
  {
    CheckThenShape(p, parseTime, replies, RdsClusterExists(p, replies, log), ClusterCheck,
                   [ClusterDelete, ClusterDeleteWait], trace);
  }

  /** A stage that extends `before` by a prefix of `segment` has steps that
      are a prefix of `before + segment + rest`, and its first new step is
      the segment's first. */
  lemma ExtendsWithin(before: seq<Step>, s: Stage, segment: seq<Step>, rest: seq<Step>)
    requires Extends(before, s, segment)
    ensures s.Trace() <= before + segment + rest
    ensures |before| < |s.Trace()| && s.Trace()[|before|] == segment[0]
  {
    var k := |s.Trace()| - |before|;
    assert (before + segment + rest)[..|before| + k] == before + segment[..k];
    assert s.Trace()[|before|] == segment[..k][0];
  }

  /** Three phases, each extending the steps of the one before by a prefix
      of its segment, make a run whose steps are a prefix of the three
      segments together, stopping where a phase stopped. */
  lemma ComposePhases(seg1: seq<Step>, seg2: seq<Step>, seg3: seq<Step>, s1: Stage, s2: Stage, s3: Stage, run: Run)
    requires Extends([], s1, seg1)
    requires s1.Continue? ==> Extends(s1.trace, s2, seg2)
    requires s1.Continue? && s2.Continue? ==> Extends(s2.trace, s3, seg3)
    requires run == if s1.Stopped? then s1.run else if s2.Stopped? then s2.run
                    else if s3.Stopped? then s3.run else Run(s3.trace, Completed, s3.log)
    ensures 0 < |run.trace| && run.trace <= seg1 + seg2 + seg3
    ensures run.end.Completed? ==> run.trace == seg1 + seg2 + seg3
    ensures !run.end.Completed? ==> run.trace[|run.trace| - 1] == run.end.at
    ensures s1.Continue? ==> |seg1| < |run.trace| && run.trace[|seg1|] == seg2[0]
  {
    if s1.Stopped? {
      ExtendsWithin([], s1, seg1, seg2 + seg3);
      assert [] + seg1 + (seg2 + seg3) == seg1 + seg2 + seg3;
    } else if s2.Stopped? {
      ExtendsWithin(seg1, s2, seg2, seg3);
    } else {
      ExtendsWithin(seg1, s2, seg2, seg3);
      ExtendsWithin(seg1 + seg2, s3, seg3, []);
      assert seg1 + seg2 + seg3 + [] == seg1 + seg2 + seg3;
      assert run.trace[..|s2.trace|] == s2.trace;
      assert run.trace[|seg1|] == run.trace[..|s2.trace|][|seg1|];
    }
  }

  /** Where the cluster describe of a run sits in its request log. */
  function ClusterCheckAt(p: Params, parseTime: string -> Option<Instant>, replies: nat -> Reply): nat {
    |InstancePhase(p, parseTime, replies).Log()|
  }

  /** A whole run follows the plan: its steps are a non-empty prefix of
      Plan, where the instance is deleted only if the first describe found
      it and the cluster only if the cluster describe found it. A completed
      run took every planned step; any other run ends with the step that
      failed, so no step follows the first failure. */
  lemma RunFollowsPlan(p: Params, parseTime: string -> Option<Instant>, replies: nat -> Reply)
    ensures var run := RunFrom(p, parseTime, replies);
            var plan := Plan(replies(0).Accepted?, replies(ClusterCheckAt(p, parseTime, replies)).Accepted?);
            && 0 < |run.trace| && run.trace <= plan
            && (run.end.Completed? ==> run.trace == plan)
            && (!run.end.Completed? ==> run.trace[|run.trace| - 1] == run.end.at)
  {
    var s1 := InstancePhase(p, parseTime, replies);
    var l1 := s1.Log();
    InstancePhaseSteps(p, parseTime, replies);
    var s2 := ClusterPhase(p, parseTime, replies, s1.Trace(), l1);
    ClusterPhaseSteps(p, parseTime, replies, s1.Trace(), l1);
    var s3 := RunSteps(p, parseTime, replies, Provisioning, s2.Trace(), s2.Log());
    RunStepsShape(p, parseTime, replies, Provisioning, s2.Trace(), s2.Log());
    ComposePhases(Teardown(InstanceCheck, InstanceDelete, InstanceDeleteWait, replies(0).Accepted?),
                  Teardown(ClusterCheck, ClusterDelete, ClusterDeleteWait, replies(|l1|).Accepted?),
                  Provisioning, s1, s2, s3, RunFrom(p, parseTime, replies));
  }

  /** What the first phase's log starts with, the whole run's log starts
      with; and likewise for the second phase when the first went on. */
  lemma ComposeLogs(a: seq<Request>, b: seq<Request>, s1: Stage, s2: Stage, s3: Stage, run: Run)
    requires Grows(a, s1.Log())
    requires s1.Continue? ==> Grows(b, s2.Log()) && Grows(s1.log, b)
    requires s1.Continue? && s2.Continue? ==> Grows(s2.log, s3.Log())
    requires run == if s1.Stopped? then s1.run else if s2.Stopped? then s2.run else Finish(s3)
    ensures Grows(a, run.log)
    ensures s1.Continue? ==> Grows(b, run.log)
  {
    if s1.Continue? {
      assert s2.Log()[..|a|] == s2.Log()[..|b|][..|s1.log|][..|a|];
      if s2.Continue? {
        assert s3.Log()[..|b|] == s3.Log()[..|s2.log|][..|b|];
        assert s3.Log()[..|a|] == s3.Log()[..|b|][..|a|];
      }
    }
  }

  /** The first request of a run describes the destination instance; once
      the run reaches the cluster check, the request at ClusterCheckAt
      describes the destination cluster. */
  lemma RunChecksTarget(p: Params, parseTime: string -> Option<Instant>, replies: nat -> Reply)
    ensures var run := RunFrom(p, parseTime, replies);
            var at := ClusterCheckAt(p, parseTime, replies);
            && 0 < |run.log| && run.log[0] == DescribeInstances(InstanceId(p))
            && (InstancePhase(p, parseTime, replies).Continue? ==>
                  at < |run.log| && run.log[at] == DescribeClusters(ClusterId(p)))
  {
    var run := RunFrom(p, parseTime, replies);
    var s1 := InstancePhase(p, parseTime, replies);
    var l1 := s1.Log();
    InstancePhaseSteps(p, parseTime, replies);
    var s2 := ClusterPhase(p, parseTime, replies, s1.Trace(), l1);
    ClusterPhaseSteps(p, parseTime, replies, s1.Trace(), l1);
    var s3 := RunSteps(p, parseTime, replies, Provisioning, s2.Trace(), s2.Log());
    RunStepsGrows(p, parseTime, replies, Provisioning, s2.Trace(), s2.Log());
    var b := l1 + [DescribeClusters(ClusterId(p))];
    assert b[..|l1|] == l1;
    ComposeLogs([DescribeInstances(InstanceId(p))], b, s1, s2, s3, run);
    assert run.log[0] == run.log[..1][0];
    if s1.Continue? {
      assert run.log[|l1|] == run.log[..|b|][|l1|];
    }
  }

  // ---------------------------------------------------------------------
  // Requests: what a run asks of the control plane

  /** A request names the destination (the cluster from `restoreRDS` or its
      "-0" instance, the source only as the restore source), and a delete
      never keeps a final snapshot. */
  predicate AimedAt(p: Params, r: Request) {
    match r
    case DescribeInstances(id) => id == InstanceId(p)
    case DescribeClusters(id) => id == ClusterId(p)
    case DeleteInstance(id, skip) => id == InstanceId(p) && skip
    case DeleteCluster(id, skip) => id == ClusterId(p) && skip
    case RestoreToPointInTime(input) =>
      input.dbClusterIdentifier == ClusterId(p) && input.sourceDBClusterIdentifier == Lookup(p, "sourceRDS")
    case CreateInstance(input) =>
      input.dbClusterIdentifier == ClusterId(p) && input.dbInstanceIdentifier == InstanceId(p)
  }

  predicate AllAimedAt(p: Params, log: seq<Request>) {
    forall i :: 0 <= i < |log| ==> AimedAt(p, log[i])
  }

  /** A request that changes something in the control plane. */
  predicate Mutating(r: Request) {
    !r.DescribeInstances? && !r.DescribeClusters?
  }

  /** The state-changing requests of a log, in order. */
  function Effects(log: seq<Request>): seq<Request> {
    if log == [] then []
    else Effects(log[..|log| - 1]) + (if Mutating(log[|log| - 1]) then [log[|log| - 1]] else [])
  }

  /** The state-changing request a step sends: none for the checks and the
      waits, and none for a restore whose time does not parse. */
  function StepEffect(p: Params, parseTime: string -> Option<Instant>, step: Step): seq<Request> {
    match step
    case InstanceDelete => [DeleteInstance(InstanceId(p), true)]
    case ClusterDelete => [DeleteCluster(ClusterId(p), true)]
    case Restore =>
      (match RestoreInputFor(p, parseTime)
       case None => []
       case Some(input) => [RestoreToPointInTime(input)])
    case InstanceCreate => [CreateInstance(CreateInputFor(p))]
    case _ => []
  }

  /** The state-changing requests the steps of a trace send, in order. */
  function StepEffects(p: Params, parseTime: string -> Option<Instant>, trace: seq<Step>): seq<Request> {
    if trace == [] then []
    else StepEffects(p, parseTime, trace[..|trace| - 1]) + StepEffect(p, parseTime, trace[|trace| - 1])
  }

  /** The log so far agrees with the steps so far. */
  predicate Consistent(p: Params, parseTime: string -> Option<Instant>, trace: seq<Step>, log: seq<Request>) {
    Effects(log) == StepEffects(p, parseTime, trace) && AllAimedAt(p, log)
  }

  /** Describes of the waited-for resource appended to a log change none of
      its effects. */
  lemma {:induction false} DescribesOnly(kind: WaitKind, p: Params, log: seq<Request>, longer: seq<Request>)
    requires Grows(log, longer)
    requires forall i :: |log| <= i < |longer| ==> longer[i] == DescribeFor(kind, p)
    requires AllAimedAt(p, log)
    ensures Effects(longer) == Effects(log)
    ensures AllAimedAt(p, longer)
    decreases |longer|
  {
    if |longer| > |log| {
      var shorter := longer[..|longer| - 1];
      assert shorter[..|log|] == log;
      DescribesOnly(kind, p, log, shorter);
      assert !Mutating(longer[|longer| - 1]);
    } else {
      assert longer == log;
    }
  }

  /** Appending at most one request adds it to the effects exactly when it
      changes something. */
  lemma EffectsAppend(log: seq<Request>, added: seq<Request>)
    requires |added| <= 1
    ensures Effects(log + added) == Effects(log) + (if added != [] && Mutating(added[0]) then added else [])
  {
    if added != [] {
      assert (log + added)[..|log|] == log;
    } else {
      assert log + added == log;
    }
  }

  /** Appending requests aimed at the destination keeps the whole log aimed
      at it. */
  lemma AimedAppend(p: Params, log: seq<Request>, added: seq<Request>)
    requires AllAimedAt(p, log) && AllAimedAt(p, added)
    ensures AllAimedAt(p, log + added)
  {
    forall i | 0 <= i < |log + added|
      ensures AimedAt(p, (log + added)[i])
    {
      if i >= |log| {
        assert (log + added)[i] == added[i - |log|];
      }
    }
  }

  /** Appending at most one request aimed at the destination keeps log and
      trace in step when it is exactly the step's state-changing request. */
  lemma AppendConsistent(p: Params, parseTime: string -> Option<Instant>, step: Step,
                         trace: seq<Step>, log: seq<Request>, added: seq<Request>)
    requires Consistent(p, parseTime, trace, log)
    requires |added| <= 1 && (added != [] ==> AimedAt(p, added[0]))
    requires StepEffect(p, parseTime, step) == if added != [] && Mutating(added[0]) then added else []
    ensures Consistent(p, parseTime, trace + [step], log + added)
  {
    assert (trace + [step])[..|trace|] == trace;
    EffectsAppend(log, added);
    AimedAppend(p, log, added);
  }

  /** A wait keeps log and trace in step: it adds only describes. */
  lemma WaitConsistent(kind: WaitKind, p: Params, parseTime: string -> Option<Instant>, replies: nat -> Reply,
                       step: Step, trace: seq<Step>, log: seq<Request>)
    requires Consistent(p, parseTime, trace, log)
    requires StepEffect(p, parseTime, step) == []
    ensures Consistent(p, parseTime, trace + [step], Wait(kind, p, replies, log).log)
  {
    WaitBounds(kind, p, replies, log);
    DescribesOnly(kind, p, log, Wait(kind, p, replies, log).log);
    assert (trace + [step])[..|trace|] == trace;
  }

  /** Every step keeps log and trace in step: the log gains exactly the
      step's state-changing request, and only requests aimed at the
      destination. */
  lemma ExecConsistent(p: Params, parseTime: string -> Option<Instant>, replies: nat -> Reply,
                       step: Step, trace: seq<Step>, log: seq<Request>)
    requires Consistent(p, parseTime, trace, log)
    ensures Consistent(p, parseTime, trace + [step], Exec(p, parseTime, replies, step, log).log)
  {
    match step {
      case InstanceCheck =>
        AppendConsistent(p, parseTime, step, trace, log, [DescribeInstances(InstanceId(p))]);
      case InstanceDelete =>
        AppendConsistent(p, parseTime, step, trace, log, [DeleteInstance(InstanceId(p), true)]);
      case InstanceDeleteWait =>
        WaitConsistent(InstanceDeleted, p, parseTime, replies, step, trace, log);
      case ClusterCheck =>
        AppendConsistent(p, parseTime, step, trace, log, [DescribeClusters(ClusterId(p))]);
      case ClusterDelete =>
        AppendConsistent(p, parseTime, step, trace, log, [DeleteCluster(ClusterId(p), true)]);
      case ClusterDeleteWait =>
        WaitConsistent(ClusterDeleted, p, parseTime, replies, step, trace, log);
      case Restore =>
        match RestoreInputFor(p, parseTime) {
          case None => AppendConsistent(p, parseTime, step, trace, log, []);
          case Some(input) => AppendConsistent(p, parseTime, step, trace, log, [RestoreToPointInTime(input)]);
        }
      case ClusterCreateWait =>
        WaitConsistent(ClusterCreated, p, parseTime, replies, step, trace, log);
      case InstanceCreate =>
        AppendConsistent(p, parseTime, step, trace, log, [CreateInstance(CreateInputFor(p))]);
      case InstanceCreateWait =>
        WaitConsistent(InstanceCreated, p, parseTime, replies, step, trace, log);
    }
  }

  /** Steps taken in a row keep log and trace in step. */
  lemma {:induction false} RunStepsConsistent(p: Params, parseTime: string -> Option<Instant>, replies: nat -> Reply,
                                              steps: seq<Step>, trace: seq<Step>, log: seq<Request>)
    requires Consistent(p, parseTime, trace, log)
    decreases |steps|
    ensures var s := RunSteps(p, parseTime, replies, steps, trace, log);
            Consistent(p, parseTime, s.Trace(), s.Log())
  {
    if steps != [] {
      var c := Exec(p, parseTime, replies, steps[0], log);
      ExecConsistent(p, parseTime, replies, steps[0], trace, log);
      if c.outcome == Ok {
        RunStepsGoesOn(p, parseTime, replies, steps, trace, log);
        RunStepsConsistent(p, parseTime, replies, steps[1..], trace + [steps[0]], c.log);
      } else {
        RunStepsStops(p, parseTime, replies, steps, trace, log);
      }
    }
  }

  lemma CheckThenConsistent(p: Params, parseTime: string -> Option<Instant>, replies: nat -> Reply,
                            step: Step, ifFound: seq<Step>, trace: seq<Step>, log: seq<Request>)
    requires step == InstanceCheck || step == ClusterCheck
    requires Consistent(p, parseTime, trace, log)
    ensures var check := if step == InstanceCheck then RdsInstanceExists(p, replies, log)
                         else RdsClusterExists(p, replies, log);
            var s := CheckThen(p, parseTime, replies, check, step, ifFound, trace);
            Consistent(p, parseTime, s.Trace(), s.Log())
  {
    var check := if step == InstanceCheck then RdsInstanceExists(p, replies, log) else RdsClusterExists(p, replies, log);
    ExecConsistent(p, parseTime, replies, step, trace, log);
    assert Exec(p, parseTime, replies, step, log).log == check.log;
    if check.outcome == Ok && check.present {
      RunStepsConsistent(p, parseTime, replies, ifFound, trace + [step], check.log);
    }
  }

  /** The state-changing requests of a run are exactly those of the steps
      it took, in the same order, and every request it sends names the
      destination. With RunFollowsPlan: nothing is deleted that its check
      did not find, nothing changes after the failing step, and the deletes
      precede the restore, which precedes the create. */
  lemma RunEffects(p: Params, parseTime: string -> Option<Instant>, replies: nat -> Reply)
    ensures var run := RunFrom(p, parseTime, replies);
            Effects(run.log) == StepEffects(p, parseTime, run.trace) && AllAimedAt(p, run.log)
  {
    assert Consistent(p, parseTime, [], []);
    CheckThenConsistent(p, parseTime, replies, InstanceCheck, [InstanceDelete, InstanceDeleteWait], [], []);
    match InstancePhase(p, parseTime, replies)
    case Stopped(r) =>
    case Continue(t1, l1) =>
      CheckThenConsistent(p, parseTime, replies, ClusterCheck, [ClusterDelete, ClusterDeleteWait], t1, l1);
      match ClusterPhase(p, parseTime, replies, t1, l1)
      case Stopped(r) =>
      case Continue(t2, l2) => RunStepsConsistent(p, parseTime, replies, Provisioning, t2, l2);
  }

  /** The source cluster is never deleted: when source and destination
      differ, every delete names the destination cluster or its "-0"
      instance. */
  lemma SourceNeverDeleted(env: Env, parseTime: string -> Option<Instant>, replies: nat -> Reply)
    requires env.sourceRDS != env.restoreRDS
    ensures var run := RunSpec(env, parseTime, replies);
            forall i :: 0 <= i < |run.log| ==>
              && (run.log[i].DeleteCluster? ==> run.log[i].clusterId == env.restoreRDS != env.sourceRDS)
              && (run.log[i].DeleteInstance? ==> run.log[i].instanceId == env.restoreRDS + "-0")
  {
    var p := RestoreParams(env);
    RunEffects(p, parseTime, replies);
    var run := RunFrom(p, parseTime, replies);
    forall i | 0 <= i < |run.log|
      ensures run.log[i].DeleteCluster? ==> run.log[i].clusterId == env.restoreRDS
      ensures run.log[i].DeleteInstance? ==> run.log[i].instanceId == env.restoreRDS + "-0"
    {
      assert AimedAt(p, run.log[i]);
    }
  }
}
