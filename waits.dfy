/** The four wait loops: waitUntilRDSClusterDeleted, waitUntilRDSClusterCreated,
    waitUntilRDSInstanceDeleted and waitUntilRDSInstanceCreated. Each is a
    counter loop of at most MaxWaitAttempts describe calls with a sleep after
    every describe that does not end it; they differ in what a reply means,
    in the pre-check the two delete waits make before the loop, and in what
    running out of attempts returns. */
module Waits {
  import opened Rds

  datatype WaitKind = ClusterDeleted | ClusterCreated | InstanceDeleted | InstanceCreated {
    /** The delete waits treat "not found" as done and make a pre-check. */
    predicate ForDeletion() { this == ClusterDeleted || this == InstanceDeleted }
    predicate OnCluster() { this == ClusterDeleted || this == ClusterCreated }
  }

  /** The describe call a wait repeats. */
  function DescribeFor(kind: WaitKind, p: Params): Request {
    if kind.OnCluster() then DescribeClusters(ClusterId(p)) else DescribeInstances(InstanceId(p))
  }

  /** The fault code meaning that the waited-for resource does not exist. */
  function NotFoundCode(kind: WaitKind): FaultCode {
    if kind.OnCluster() then DBClusterNotFoundFault else DBInstanceNotFoundFault
  }

  /** The status that ends a wait successfully. */
  function TargetStatus(kind: WaitKind): string {
    if kind.ForDeletion() then "terminated" else "available"
  }

  /** What a wait returns once every attempt kept waiting: the cluster waits
      an error, the instance waits nil. */
  function ExhaustedOutcome(kind: WaitKind): Outcome {
    if kind.OnCluster() then Err(AttemptsExhausted) else Ok
  }

  /** What one describe reply inside a wait loop does: None to sleep and poll
      again, Some(o) to leave the loop returning o. In the delete waits a
      non-AWS error does not return: the loop goes on to read the status of
      the first entry of a response that holds none, which panics. */
  function Reaction(kind: WaitKind, reply: Reply): Option<Outcome> {
    match reply
    case Accepted(status) => if status == TargetStatus(kind) then Some(Ok) else None
    case AwsFault(code) =>
      if kind.ForDeletion() && code == NotFoundCode(kind) then Some(Ok) else Some(Err(Fault(code)))
    case NonAwsError => if kind.ForDeletion() then Some(Panic) else Some(Err(Transport))
  }

  /** A reply keeps a wait waiting exactly when it is a status other than
      the target. A delete wait is done on not found or "terminated", stops
      with the error on any other fault and panics on a non-AWS error; a
      create wait is done only on "available" and stops with the error on
      any failure. No single reply means running out of attempts. */
  lemma ReactionMeaning(kind: WaitKind, reply: Reply)
    ensures var r := Reaction(kind, reply);
            && r != Some(Err(AttemptsExhausted))
            && (r.None? <==> reply.Accepted? && reply.status != TargetStatus(kind))
            && (kind.ForDeletion() ==>
                  && (r == Some(Ok) <==> reply == AwsFault(NotFoundCode(kind)) || reply == Accepted("terminated"))
                  && (reply.AwsFault? && reply.code != NotFoundCode(kind) ==> r == Some(Err(Fault(reply.code))))
                  && (reply.NonAwsError? ==> r == Some(Panic)))
            && (!kind.ForDeletion() ==>
                  && (r == Some(Ok) <==> reply == Accepted("available"))
                  && (!reply.Accepted? ==> r == Some(FailureOf(reply))))
  {
  }

  /** The result of a wait: what the function returns, the request log
      extended by its describe calls, how many describes the loop made, and
      how long it slept. */
  datatype Waited = Waited(outcome: Outcome, log: seq<Request>, attempts: nat, sleptSeconds: nat)

  /** The loop, from attempt number `attempt` on (0-based), with `log` the
      requests issued before that attempt. `attempt` attempts have each been
      followed by a sleep. */
  function Poll(kind: WaitKind, p: Params, replies: nat -> Reply, log: seq<Request>, attempt: nat): Waited
    requires attempt <= MaxWaitAttempts
    decreases MaxWaitAttempts - attempt
  {
    if attempt == MaxWaitAttempts then
      Waited(ExhaustedOutcome(kind), log, attempt, PollIntervalSeconds * attempt)
    else
      var log' := log + [DescribeFor(kind, p)];
      match Reaction(kind, replies(|log|))
      case Some(o) => Waited(o, log', attempt + 1, PollIntervalSeconds * attempt)
      case None => Poll(kind, p, replies, log', attempt + 1)
  }

  /** A whole wait: the delete waits first describe the resource once and
      return an error on any AWS fault, "not found" included; a non-AWS error
      in that pre-check is not caught and the loop runs. */
  function Wait(kind: WaitKind, p: Params, replies: nat -> Reply, log: seq<Request>): Waited {
    if kind.ForDeletion() then
      var pre := replies(|log|);
      var log' := log + [DescribeFor(kind, p)];
      if pre.AwsFault? then Waited(Err(Fault(pre.code)), log', 0, 0) else Poll(kind, p, replies, log', 0)
    else
      Poll(kind, p, replies, log, 0)
  }

  /** The counter loop the four waits share. */
  method PollLoop(kind: WaitKind, p: Params, replies: nat -> Reply, log: seq<Request>) returns (w: Waited)
    ensures w == Poll(kind, p, replies, log, 0)
  {
    var describe := DescribeFor(kind, p);
    var current := log;
    var attempt := 0;
    while attempt < MaxWaitAttempts
      invariant attempt <= MaxWaitAttempts
      invariant Poll(kind, p, replies, current, attempt) == Poll(kind, p, replies, log, 0)
    {
      var reply := replies(|current|);
      current := current + [describe];
      var reaction := Reaction(kind, reply);
      if reaction.Some? {
        return Waited(reaction.value, current, attempt + 1, PollIntervalSeconds * attempt);
      }
      // the loop sleeps PollIntervalSeconds before the next attempt
      attempt := attempt + 1;
    }
    w := Waited(ExhaustedOutcome(kind), current, attempt, PollIntervalSeconds * attempt);
  }

  /** The pre-check of the two delete waits, then the loop. */
  method DeleteWait(kind: WaitKind, p: Params, replies: nat -> Reply, log: seq<Request>) returns (w: Waited)
    requires kind.ForDeletion()
    ensures w == Wait(kind, p, replies, log)
  {
    var pre := replies(|log|);
    var current := log + [DescribeFor(kind, p)];
    if pre.AwsFault? {
      return Waited(Err(Fault(pre.code)), current, 0, 0);
    }
    w := PollLoop(kind, p, replies, current);
  }

  method WaitUntilRdsClusterDeleted(p: Params, replies: nat -> Reply, log: seq<Request>) returns (w: Waited)
    ensures w == Wait(ClusterDeleted, p, replies, log)
  {
    w := DeleteWait(ClusterDeleted, p, replies, log);
  }

  method WaitUntilRdsClusterCreated(p: Params, replies: nat -> Reply, log: seq<Request>) returns (w: Waited)
    ensures w == Wait(ClusterCreated, p, replies, log)
  {
    w := PollLoop(ClusterCreated, p, replies, log);
  }

  method WaitUntilRdsInstanceDeleted(p: Params, replies: nat -> Reply, log: seq<Request>) returns (w: Waited)
    ensures w == Wait(InstanceDeleted, p, replies, log)
  {
    w := DeleteWait(InstanceDeleted, p, replies, log);
  }

  method WaitUntilRdsInstanceCreated(p: Params, replies: nat -> Reply, log: seq<Request>) returns (w: Waited)
    ensures w == Wait(InstanceCreated, p, replies, log)
  {
    w := PollLoop(InstanceCreated, p, replies, log);
  }

  /** The reply to the request at log position i keeps a wait loop waiting. */
  predicate KeepsWaiting(kind: WaitKind, replies: nat -> Reply, i: nat) {
    Reaction(kind, replies(i)).None?
  }

  /** What the loop sends, from attempt `a` on: between one and
      MaxWaitAttempts - a describes of the waited-for resource, appended to
      the log, and at most 30 seconds of sleep per attempt. */
  lemma {:induction false} PollLog(kind: WaitKind, p: Params, replies: nat -> Reply, log: seq<Request>, a: nat)
    requires a < MaxWaitAttempts
    decreases MaxWaitAttempts - a
    ensures var w := Poll(kind, p, replies, log, a);
            && a < w.attempts <= MaxWaitAttempts
            && |w.log| == |log| + (w.attempts - a)
            && w.sleptSeconds <= PollIntervalSeconds * w.attempts
            && w.log[..|log|] == log
            && (forall i :: |log| <= i < |w.log| ==> w.log[i] == DescribeFor(kind, p))
  {
    var log' := log + [DescribeFor(kind, p)];
    if Reaction(kind, replies(|log|)).None? && a + 1 < MaxWaitAttempts {
      PollLog(kind, p, replies, log', a + 1);
      var w := Poll(kind, p, replies, log', a + 1);
      assert Poll(kind, p, replies, log, a) == w;
      DescribedAfter(log, DescribeFor(kind, p), w.log);
    }
  }

  /** How the loop ends, from attempt `a` on: every reply but the last kept
      it waiting, and it returns what the last reply says, having slept
      after each earlier attempt, or, when the last reply kept it waiting
      too, it stops after attempt MaxWaitAttempts with ExhaustedOutcome and
      a sleep after every attempt. */
  lemma {:induction false} PollEnd(kind: WaitKind, p: Params, replies: nat -> Reply, log: seq<Request>, a: nat)
    requires a < MaxWaitAttempts
    decreases MaxWaitAttempts - a
    ensures var w := Poll(kind, p, replies, log, a);
            var last := |log| + (w.attempts - a) - 1;
            && a < w.attempts <= MaxWaitAttempts
            && (forall i :: |log| <= i < last ==> KeepsWaiting(kind, replies, i))
            && (|| (Reaction(kind, replies(last)) == Some(w.outcome)
                    && w.sleptSeconds == PollIntervalSeconds * (w.attempts - 1))
                || (KeepsWaiting(kind, replies, last)
                    && w.attempts == MaxWaitAttempts
                    && w.outcome == ExhaustedOutcome(kind)
                    && w.sleptSeconds == PollIntervalSeconds * MaxWaitAttempts))
  {
    var log' := log + [DescribeFor(kind, p)];
    if Reaction(kind, replies(|log|)).None? && a + 1 < MaxWaitAttempts {
      PollEnd(kind, p, replies, log', a + 1);
      assert Poll(kind, p, replies, log, a) == Poll(kind, p, replies, log', a + 1);
    }
  }

  /** Everything the loop does, from attempt `a` on, when `log` is the log
      before that attempt: PollLog and PollEnd together. */
  lemma PollShape(kind: WaitKind, p: Params, replies: nat -> Reply, log: seq<Request>, a: nat)
    requires a < MaxWaitAttempts
    ensures var w := Poll(kind, p, replies, log, a);
            && a < w.attempts <= MaxWaitAttempts
            && |w.log| == |log| + (w.attempts - a)
            && w.log[..|log|] == log
            && (forall i :: |log| <= i < |w.log| ==> w.log[i] == DescribeFor(kind, p))
            && (forall i :: |log| <= i < |w.log| - 1 ==> KeepsWaiting(kind, replies, i))
            && (|| (Reaction(kind, replies(|w.log| - 1)) == Some(w.outcome)
                    && w.sleptSeconds == PollIntervalSeconds * (w.attempts - 1))
                || (KeepsWaiting(kind, replies, |w.log| - 1)
                    && w.attempts == MaxWaitAttempts
                    && w.outcome == ExhaustedOutcome(kind)
                    && w.sleptSeconds == PollIntervalSeconds * MaxWaitAttempts))
  {
    PollLog(kind, p, replies, log, a);
    PollEnd(kind, p, replies, log, a);
  }

  /** A wait loop whose first k - 1 describes from attempt `a` on keep it
      waiting and whose k-th describe ends it returns what that describe
      says after attempt a + k, k more describes and a + k - 1 sleeps in
      all. */
  lemma {:induction false} PollEndsAt(kind: WaitKind, p: Params, replies: nat -> Reply, log: seq<Request>,
                                      a: nat, k: nat, o: Outcome)
    requires 1 <= k <= MaxWaitAttempts - a
    requires forall i :: |log| <= i < |log| + k - 1 ==> KeepsWaiting(kind, replies, i)
    requires Reaction(kind, replies(|log| + k - 1)) == Some(o)
    decreases k
    ensures var w := Poll(kind, p, replies, log, a);
            && w.outcome == o && w.attempts == a + k && |w.log| == |log| + k
            && w.sleptSeconds == PollIntervalSeconds * (a + k - 1)
  {
    if k > 1 {
      assert KeepsWaiting(kind, replies, |log|);
      PollEndsAt(kind, p, replies, log + [DescribeFor(kind, p)], a + 1, k - 1, o);
    }
  }

  /** A wait loop succeeds at attempt k when the k-th describe shows the
      target state (or, for a delete wait, that the resource is gone) and
      every earlier describe showed some other state. */
  lemma PollSucceedsAt(kind: WaitKind, p: Params, replies: nat -> Reply, log: seq<Request>, k: nat)
    requires 1 <= k <= MaxWaitAttempts
    requires Reaction(kind, replies(|log| + k - 1)) == Some(Ok)
    requires forall i :: |log| <= i < |log| + k - 1 ==>
               replies(i).Accepted? && replies(i).status != TargetStatus(kind)
    ensures var w := Poll(kind, p, replies, log, 0);
            w.outcome == Ok && w.attempts == k && w.sleptSeconds == PollIntervalSeconds * (k - 1)
  {
    forall i | |log| <= i < |log| + k - 1
      ensures KeepsWaiting(kind, replies, i)
    {
      assert replies(i).Accepted? && replies(i).status != TargetStatus(kind);
    }
    PollEndsAt(kind, p, replies, log, 0, k, Ok);
  }

  /** When every describe from attempt `a` on keeps the loop waiting, it
      makes the remaining MaxWaitAttempts - a describes, ends after attempt
      MaxWaitAttempts with ExhaustedOutcome, a sleep after every attempt. */
  lemma {:induction false} PollAllWaiting(kind: WaitKind, p: Params, replies: nat -> Reply, log: seq<Request>, a: nat)
    requires a <= MaxWaitAttempts
    requires forall i :: |log| <= i < |log| + (MaxWaitAttempts - a) ==> KeepsWaiting(kind, replies, i)
    decreases MaxWaitAttempts - a
    ensures var w := Poll(kind, p, replies, log, a);
            && w.outcome == ExhaustedOutcome(kind)
            && w.attempts == MaxWaitAttempts
            && |w.log| == |log| + (MaxWaitAttempts - a)
            && w.sleptSeconds == PollIntervalSeconds * MaxWaitAttempts
  {
    if a < MaxWaitAttempts {
      assert KeepsWaiting(kind, replies, |log|);
      PollAllWaiting(kind, p, replies, log + [DescribeFor(kind, p)], a + 1);
    }
  }

  /** When every one of the MaxWaitAttempts describes keeps the loop waiting,
      it makes exactly MaxWaitAttempts describes, sleeps 30 seconds after each
      (an hour in all) and returns ExhaustedOutcome. */
  lemma PollTimesOut(kind: WaitKind, p: Params, replies: nat -> Reply, log: seq<Request>)
    requires forall i :: |log| <= i < |log| + MaxWaitAttempts ==> KeepsWaiting(kind, replies, i)
    ensures var w := Poll(kind, p, replies, log, 0);
            && w.outcome == ExhaustedOutcome(kind)
            && w.attempts == MaxWaitAttempts
            && |w.log| == |log| + MaxWaitAttempts
            && w.sleptSeconds == 3600
  {
    PollAllWaiting(kind, p, replies, log, 0);
  }

  /** The loop, from attempt `a` on, returns the out-of-attempts error only
      in a cluster wait, and only when each of its remaining describes kept
      it waiting. */
  lemma {:induction false} PollExhaustedOnlyWhenAllWait(kind: WaitKind, p: Params, replies: nat -> Reply,
                                                        log: seq<Request>, a: nat)
    requires a <= MaxWaitAttempts
    decreases MaxWaitAttempts - a
    ensures Poll(kind, p, replies, log, a).outcome == Err(AttemptsExhausted) ==>
              && kind.OnCluster()
              && forall i :: |log| <= i < |log| + (MaxWaitAttempts - a) ==> KeepsWaiting(kind, replies, i)
  {
    if a < MaxWaitAttempts && KeepsWaiting(kind, replies, |log|) {
      var log' := log + [DescribeFor(kind, p)];
      PollExhaustedOnlyWhenAllWait(kind, p, replies, log', a + 1);
      assert Poll(kind, p, replies, log, a) == Poll(kind, p, replies, log', a + 1);
    }
  }

  /** A cluster wait returns the out-of-attempts error exactly when none of
      its MaxWaitAttempts describes ended the loop. */
  lemma ClusterWaitTimeoutIff(kind: WaitKind, p: Params, replies: nat -> Reply, log: seq<Request>)
    requires kind.OnCluster()
    ensures Poll(kind, p, replies, log, 0).outcome == Err(AttemptsExhausted)
            <==> forall i :: |log| <= i < |log| + MaxWaitAttempts ==> KeepsWaiting(kind, replies, i)
  {
    PollExhaustedOnlyWhenAllWait(kind, p, replies, log, 0);
    if forall i :: |log| <= i < |log| + MaxWaitAttempts ==> KeepsWaiting(kind, replies, i) {
      PollAllWaiting(kind, p, replies, log, 0);
    }
  }

  /** Unlike the cluster waits, an instance wait never reports running out
      of attempts: after MaxWaitAttempts describes that kept it waiting it
      returns nil. */
  lemma InstanceWaitNeverTimesOut(kind: WaitKind, p: Params, replies: nat -> Reply, log: seq<Request>)
    requires !kind.OnCluster()
    ensures Poll(kind, p, replies, log, 0).outcome != Err(AttemptsExhausted)
    ensures (forall i :: |log| <= i < |log| + MaxWaitAttempts ==> KeepsWaiting(kind, replies, i))
            ==> Poll(kind, p, replies, log, 0).outcome == Ok
  {
    PollExhaustedOnlyWhenAllWait(kind, p, replies, log, 0);
    if forall i :: |log| <= i < |log| + MaxWaitAttempts ==> KeepsWaiting(kind, replies, i) {
      PollAllWaiting(kind, p, replies, log, 0);
    }
  }

  /** The pre-check of a delete wait: a resource already reported not found
      (or any other AWS fault) is an error after that one describe, before
      the loop starts; a non-AWS error there is ignored and the loop runs. */
  lemma DeleteWaitPreCheck(kind: WaitKind, p: Params, replies: nat -> Reply, log: seq<Request>)
    requires kind.ForDeletion()
    ensures var w := Wait(kind, p, replies, log);
            var pre := replies(|log|);
            && (pre.AwsFault? ==> w == Waited(Err(Fault(pre.code)), log + [DescribeFor(kind, p)], 0, 0))
            && (pre == AwsFault(NotFoundCode(kind)) ==> w.outcome.Err?)
            && (!pre.AwsFault? ==> w == Poll(kind, p, replies, log + [DescribeFor(kind, p)], 0))
  {
  }

  /** Bounds of a whole wait: at most MaxWaitAttempts describes in the loop
      (one more for a delete wait's pre-check), at most an hour of sleep, and
      nothing but describes of the waited-for resource. */
  lemma WaitBounds(kind: WaitKind, p: Params, replies: nat -> Reply, log: seq<Request>)
    ensures var w := Wait(kind, p, replies, log);
            && w.attempts <= MaxWaitAttempts
            && w.sleptSeconds <= PollIntervalSeconds * MaxWaitAttempts
            && |w.log| == |log| + w.attempts + (if kind.ForDeletion() then 1 else 0)
            && w.log[..|log|] == log
            && (forall i :: |log| <= i < |w.log| ==> w.log[i] == DescribeFor(kind, p))
  {
    var w := Wait(kind, p, replies, log);
    var describe := DescribeFor(kind, p);
    if !kind.ForDeletion() {
      assert w == Poll(kind, p, replies, log, 0);
      PollLog(kind, p, replies, log, 0);
    } else if replies(|log|).AwsFault? {
      assert w.log == log + [describe];
    } else {
      var log' := log + [describe];
      assert w == Poll(kind, p, replies, log', 0);
      PollLog(kind, p, replies, log', 0);
      DescribedAfter(log, describe, w.log);
    }
  }

  /** A log that starts with `log` and one more describe, followed only by
      describes, starts with `log` and holds only describes after it. */
  lemma DescribedAfter(log: seq<Request>, describe: Request, extended: seq<Request>)
    requires |log| < |extended| && extended[..|log| + 1] == log + [describe]
    requires forall i :: |log| + 1 <= i < |extended| ==> extended[i] == describe
    ensures extended[..|log|] == log
    ensures forall i :: |log| <= i < |extended| ==> extended[i] == describe
  {
    assert extended[..|log|] == extended[..|log| + 1][..|log|];
    assert extended[|log|] == extended[..|log| + 1][|log|];
  }
}
